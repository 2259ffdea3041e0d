/**
 What the thread pool promises its callers over whole runs: a request that is cancelled while it is
 queued never runs, one that is running is left alone, and requests are started and delivered in
 the order in which they came.
 */
module ThreadPoolPromises {
  import opened Common
  import opened ThreadPool
  import opened ThreadPoolProgress

  predicate Before(p: Place) {
    p.InWork? || p.InSlow? || p.AtWorker?
  }

  // ---------- Cancelling ----------

  /** The request has left the queue, but no worker has started it, and none has it. */
  ghost predicate Revoked(s: State, id: nat) {
    id in s.reqs && !s.reqs[id].started && !Before(s.reqs[id].place)
  }

  /** What a step does to a request that is on its way back to its loop. */
  lemma PastStep(s: State, e: Step, id: nat)
    requires Inv(s) && Enabled(s, e) && id in s.reqs && !Before(s.reqs[id].place)
    ensures id in Apply(s, e).reqs && !Before(Apply(s, e).reqs[id].place)
    ensures Apply(s, e).reqs[id].started == s.reqs[id].started && Apply(s, e).reqs[id].loop == s.reqs[id].loop
    ensures Apply(s, e).reqs[id].slow == s.reqs[id].slow
  {
    hide Inv, CanSignal, AfterIterate, AfterSubmit, AfterPostExit, Remove;
    match e
    case Iterate(t, wake) => PastIterate(s, t, wake, id);
    case Submit(x, l, slow, wake) => SubmitAt(s, x, l, slow, wake, id);
    case PostExit(wake) => ExitFields(s, wake);
    case Call(t) => WorkerElsewhere(s, t, id);
    case Finish(t) => WorkerElsewhere(s, t, id);
    case _ =>
  }

  lemma WorkerElsewhere(s: State, t: nat, id: nat)
    requires Inv(s) && t < |s.workers| && (s.workers[t].Taken? || s.workers[t].Running?)
    requires id in s.reqs && !Before(s.reqs[id].place)
    ensures s.workers[t].id != id
  {
    assert Holds(s, s.workers[t].id, AtWorker(t));
  }

  lemma SubmitAt(s: State, x: nat, l: nat, slow: bool, wake: nat, id: nat)
    requires id in s.reqs && x != id
    ensures id in AfterSubmit(s, x, l, slow, wake).reqs && AfterSubmit(s, x, l, slow, wake).reqs[id] == s.reqs[id]
  {
    hide IsBlocked, Signal;
    var s1 := s.(reqs := s.reqs[x := Request(l, slow, Function, true, if slow then InSlow else InWork, false, None)]);
    var s2 := s1.(slowq := s1.slowq + [x]);
    SignalFields(s1.(wq := s1.wq + [Req(x)]), wake);
    SignalFields(s2.(wq := s2.wq + [RunSlow], runSlowLinked := true), wake);
  }

  /** Whom an iteration takes, if it takes a request: the head of one of the queues. */
  function TakenBy(s: State): Option<nat> {
    if MustWait(s) then None
    else match s.wq[0]
      case Req(id) => Some(id)
      case RunSlow => if s.slowRunning < Threshold(s) && s.slowq != [] then Some(s.slowq[0]) else None
      case ExitMsg => None
  }

  lemma TakenRequests(s: State, s1: State, t: nat, x: nat, slow: bool, id: nat)
    requires t < |s1.workers| && s1.reqs == s.reqs && id in s.reqs
    ensures id in Take(s1, t, x, slow).reqs
    ensures Take(s1, t, x, slow).reqs[id] ==
      if id == x then s.reqs[id].(linked := false, place := AtWorker(t)) else s.reqs[id]
  {
  }

  /** An iteration changes the record of the request it takes and of no other. */
  lemma IterateAt(s: State, t: nat, wake: nat, id: nat)
    requires t < |s.workers| && id in s.reqs
    ensures id in AfterIterate(s, t, wake).reqs
    ensures AfterIterate(s, t, wake).reqs[id] ==
      if TakenBy(s) == Some(id) then s.reqs[id].(linked := false, place := AtWorker(t)) else s.reqs[id]
  {
    hide IsBlocked, Threshold, Take, Signal, SignalIfIdle;
    if !MustWait(s) && s.wq[0].ExitMsg? {
      SignalFields(s, wake);
    } else if !MustWait(s) && s.wq[0].Req? {
      TakenRequests(s, s.(wq := s.wq[1..]), t, s.wq[0].id, false, id);
    } else if !MustWait(s) && s.slowRunning < Threshold(s) && s.slowq != [] {
      var s2 := s.(wq := s.wq[1..], runSlowLinked := false, slowRunning := s.slowRunning + 1, slowq := s.slowq[1..]);
      var s3 := s2.(wq := s2.wq + [RunSlow], runSlowLinked := true);
      SignalFields(s3, wake);
      TakenRequests(s, if s2.slowq != [] then SignalIfIdle(s3, wake) else s2, t, s.slowq[0], true, id);
    }
  }

  lemma TakenQueued(s: State)
    requires Inv(s) && TakenBy(s).Some?
    ensures TakenBy(s).value in s.reqs && Before(s.reqs[TakenBy(s).value].place)
  {
    var id := TakenBy(s).value;
    assert Holds(s, id, InWork) || Holds(s, id, InSlow);
  }

  lemma PastIterate(s: State, t: nat, wake: nat, id: nat)
    requires Inv(s) && t < |s.workers| && id in s.reqs && !Before(s.reqs[id].place)
    ensures id in AfterIterate(s, t, wake).reqs && AfterIterate(s, t, wake).reqs[id] == s.reqs[id]
  {
    hide Inv, TakenBy, AfterIterate, Take;
    IterateAt(s, t, wake, id);
    if TakenBy(s).Some? { TakenQueued(s); }
  }

  lemma {:induction false} RevokedRun(s0: State, es: seq<Step>, s: State, id: nat)
    requires Inv(s0) && Revoked(s0, id) && Run(s0, es, s)
    ensures Inv(s) && Revoked(s, id)
    decreases |es|
  {
    hide Inv, Enabled, Apply, Before;
    if es != [] {
      PastStep(s0, es[0], id);
      StepKeeps(s0, es[0]);
      RevokedRun(Apply(s0, es[0]), es[1..], s, id);
    }
  }

  lemma CancelRevokes(s: State, id: nat)
    requires Inv(s) && Enabled(s, CancelStart(id)) && (s.reqs[id].place.InWork? || s.reqs[id].place.InSlow?)
    ensures Revoked(Apply(s, CancelStart(id)), id) && Inv(Apply(s, CancelStart(id)))
  {
    StepKeeps(s, CancelStart(id));
    assert RequestOK(s, s.reqs[id]);
  }

  /** Cancelling a queued request cancels it: whatever happens afterwards, its work function never
      runs, and when its callback is called it sees ECANCELED. */
  lemma CancelledNeverRuns(s: State, id: nat, es: seq<Step>, s': State)
    requires Reachable(s) && Enabled(s, CancelStart(id)) && (Holds(s, id, InWork) || Holds(s, id, InSlow))
    requires Run(Apply(s, CancelStart(id)), es, s')
    ensures id in s'.reqs && !s'.reqs[id].started
    ensures Counts(Apply(s, CancelStart(id)), es, id).1 == 0
    ensures s'.reqs[id].done.Some? ==> s'.reqs[id].done == Some(Cancelled)
  {
    hide Inv, Enabled, Apply, Run, Counts, RequestOK;
    ReachableInv(s);
    QueuedPlace(s, id);
    var s1 := Apply(s, CancelStart(id));
    CancelRevokes(s, id);
    RevokedRun(s1, es, s', id);
    CountedFrom(s1, es, s', id);
    RevokedStatus(s', id);
  }

  lemma QueuedPlace(s: State, id: nat)
    requires Inv(s) && (Holds(s, id, InWork) || Holds(s, id, InSlow))
    ensures id in s.reqs && (s.reqs[id].place.InWork? || s.reqs[id].place.InSlow?)
  {
  }

  lemma RevokedStatus(s: State, id: nat)
    requires Inv(s) && Revoked(s, id)
    ensures s.reqs[id].done.Some? ==> s.reqs[id].done == Some(Cancelled)
    ensures IsStarted(s, id) == false
  {
    assert RequestOK(s, s.reqs[id]);
  }

  /** And it is delivered: when workers and loops have nothing left to do, its callback has seen
      ECANCELED. */
  lemma CancelledIsDelivered(s: State, id: nat, es: seq<Step>, s': State)
    requires Reachable(s) && !s.exiting && Enabled(s, CancelStart(id))
    requires Holds(s, id, InWork) || Holds(s, id, InSlow)
    requires OwnRun(Apply(s, CancelStart(id)), es, s') && Stuck(s')
    ensures id in s'.reqs && s'.reqs[id].done == Some(Cancelled) && !s'.reqs[id].started
  {
    hide Inv, Enabled, Apply, Run, OwnRun, Stuck, Reachable, Counts;
    var s1 := Apply(s, CancelStart(id));
    ReachableInv(s);
    QueuedPlace(s, id);
    CancelRevokes(s, id);
    StepReachable(s, CancelStart(id));
    CancelRunsOn(s, id);
    EverythingDelivered(s1, es, s');
    OwnRunRuns(s1, es, s');
    CancelledNeverRuns(s, id, es, s');
    StaysReachable(s1, es, s');
    ReachableInv(s');
    DeliveredDone(s', id);
  }

  lemma StepReachable(s: State, e: Step)
    requires Reachable(s) && Enabled(s, e)
    ensures Reachable(Apply(s, e))
  {
    hide Enabled, Apply, Reachable;
    assert [e][1..] == [];
    assert Run(Apply(s, e), [], Apply(s, e));
    assert Run(s, [e], Apply(s, e));
    StaysReachable(s, [e], Apply(s, e));
  }

  lemma CancelRunsOn(s: State, id: nat)
    requires Enabled(s, CancelStart(id))
    ensures Apply(s, CancelStart(id)).exiting == s.exiting
  {
  }

  lemma DeliveredDone(s: State, id: nat)
    requires Inv(s) && id in s.reqs && s.reqs[id].place.Delivered?
    ensures s.reqs[id].done.Some?
  {
    assert RequestOK(s, s.reqs[id]);
  }

  /** Cancelling changes nothing, and the call returns EBUSY, exactly while a worker has the request
      or once one has run it. */
  lemma CancelBusy(s: State, id: nat)
    requires Reachable(s) && Enabled(s, CancelStart(id))
    ensures Apply(s, CancelStart(id)) == s <==> (s.reqs[id].started || s.reqs[id].place.AtWorker?)
  {
    ReachableInv(s);
    var r := s.reqs[id];
    assert RequestOK(s, r) && Holds(s, id, r.place);
    if CanCancel(r) {
      assert AfterCancelStart(s, id).reqs[id].place == Cancelling(r.loop);
    }
  }

  // ---------- Order ----------

  ghost predicate Precedes<T>(q: seq<T>, a: T, b: T) {
    forall i, j :: 0 <= i < |q| && 0 <= j < |q| && q[i] == a && q[j] == b ==> i < j
  }

  lemma PrecedesTail<T>(q: seq<T>, a: T, b: T)
    requires q != [] && Precedes(q, a, b)
    ensures Precedes(q[1..], a, b)
  {
    forall i, j | 0 <= i < |q| - 1 && 0 <= j < |q| - 1 && q[1..][i] == a && q[1..][j] == b ensures i < j {
      assert q[i + 1] == a && q[j + 1] == b;
    }
  }

  lemma PrecedesMore<T>(q: seq<T>, a: T, b: T, c: T)
    requires Precedes(q, a, b) && c != a
    ensures Precedes(q + [c], a, b)
  {
  }

  lemma NotHead<T>(q: seq<T>, a: T, b: T)
    requires q != [] && Precedes(q, a, b) && a in q
    ensures q[0] != b
  {
    var i :| 0 <= i < |q| && q[i] == a;
  }

  lemma {:induction false} PrecedesRemove<T>(q: seq<T>, a: T, b: T, c: T)
    requires Precedes(q, a, b) && a != b
    ensures Precedes(Remove(q, c), a, b)
  {
    if q != [] {
      PrecedesTail(q, a, b);
      if q[0] != c {
        PrecedesRemove(q[1..], a, b, c);
        var r := Remove(q[1..], c);
        forall i, j | 0 <= i < |r| + 1 && 0 <= j < |r| + 1 && Remove(q, c)[i] == a && Remove(q, c)[j] == b
          ensures i < j
        {
          if j == 0 {
            assert q[0] == b;
            RemoveHas(q[1..], c, r[i - 1]);
            NotHead(q, a, b);
          } else if i > 0 {
            assert r[i - 1] == a && r[j - 1] == b;
          }
        }
      }
    }
  }

  lemma {:induction false} RemoveHas<T>(q: seq<T>, c: T, x: T)
    requires x in Remove(q, c)
    ensures x in q
  {
    if q != [] && q[0] != c && x != q[0] { RemoveHas(q[1..], c, x); }
  }

  /** Not started, and no worker has it. */
  ghost predicate Waits(s: State, y: nat) {
    y in s.reqs && !s.reqs[y].started && !s.reqs[y].place.AtWorker?
  }

  /** While `x` is queued, `y` waits behind it. */
  ghost predicate InLine(s: State, x: nat, y: nat) {
    x in s.reqs && x != y &&
    (Req(x) in s.wq && y in s.reqs && !s.reqs[y].slow ==> Waits(s, y) && Precedes(s.wq, Req(x), Req(y))) &&
    (x in s.slowq && y in s.reqs && s.reqs[y].slow ==> Waits(s, y) && Precedes(s.slowq, x, y))
  }

  lemma SignalQueues(s: State, wake: nat)
    ensures Signal(s, wake) == s.(workers := Signal(s, wake).workers)
    ensures SignalIfIdle(s, wake) == s.(workers := SignalIfIdle(s, wake).workers)
    ensures |Signal(s, wake).workers| == |SignalIfIdle(s, wake).workers| == |s.workers|
  {
  }

  lemma TakeQueues(s: State, t: nat, id: nat, slow: bool)
    requires t < |s.workers|
    ensures Take(s, t, id, slow).wq == s.wq && Take(s, t, id, slow).slowq == s.slowq &&
      Take(s, t, id, slow).loops == s.loops
  {
  }

  lemma IterateQueues(s: State, t: nat, wake: nat)
    requires t < |s.workers|
    ensures var s' := AfterIterate(s, t, wake);
      s'.loops == s.loops &&
      (s'.wq == s.wq || (s.wq != [] && (s'.wq == s.wq[1..] || s'.wq == s.wq[1..] + [RunSlow]))) &&
      (s'.slowq == s.slowq || (s.slowq != [] && s'.slowq == s.slowq[1..]))
  {
    hide IsBlocked, Threshold, Take, Signal, SignalIfIdle;
    if !MustWait(s) && s.wq[0].ExitMsg? {
      SignalQueues(s, wake);
    } else if !MustWait(s) && s.wq[0].Req? {
      TakeQueues(s.(wq := s.wq[1..]), t, s.wq[0].id, false);
    } else if !MustWait(s) && s.slowRunning < Threshold(s) && s.slowq != [] {
      var s2 := s.(wq := s.wq[1..], runSlowLinked := false, slowRunning := s.slowRunning + 1, slowq := s.slowq[1..]);
      var s3 := s2.(wq := s2.wq + [RunSlow], runSlowLinked := true);
      SignalQueues(s3, wake);
      TakeQueues(if s2.slowq != [] then SignalIfIdle(s3, wake) else s2, t, s.slowq[0], true);
    }
  }

  /** An iteration takes the head of the queue that the request waits in. */
  lemma TakenHead(s: State)
    requires Inv(s) && TakenBy(s).Some?
    ensures var id := TakenBy(s).value;
      id in s.reqs && if s.reqs[id].slow then s.slowq != [] && s.slowq[0] == id else s.wq != [] && s.wq[0] == Req(id)
  {
    var id := TakenBy(s).value;
    if s.wq[0].Req? {
      assert Holds(s, id, InWork);
    } else {
      assert Holds(s, id, InSlow);
    }
    assert RequestOK(s, s.reqs[id]);
  }

  lemma LineIterate(s: State, t: nat, wake: nat, x: nat, y: nat)
    requires Inv(s) && Enabled(s, Iterate(t, wake)) && InLine(s, x, y)
    ensures InLine(AfterIterate(s, t, wake), x, y)
  {
    hide Inv, AfterIterate, TakenBy, Precedes, MustWait, CanSignal;
    IterateQueues(s, t, wake);
    IterateAt(s, t, wake, x);
    IterateRequests(s, t, wake);
    if y in s.reqs {
      IterateAt(s, t, wake, y);
      LineTaken(s, x, y);
      if s.wq != [] && Precedes(s.wq, Req(x), Req(y)) {
        PrecedesTail(s.wq, Req(x), Req(y));
        PrecedesMore(s.wq[1..], Req(x), Req(y), RunSlow);
      }
      if s.slowq != [] && Precedes(s.slowq, x, y) { PrecedesTail(s.slowq, x, y); }
    }
  }

  lemma LineTaken(s: State, x: nat, y: nat)
    requires Inv(s) && InLine(s, x, y) && y in s.reqs
    ensures !s.reqs[y].slow && Req(x) in s.wq ==> TakenBy(s) != Some(y)
    ensures s.reqs[y].slow && x in s.slowq ==> TakenBy(s) != Some(y)
  {
    hide Inv, TakenBy, Precedes;
    if TakenBy(s) == Some(y) {
      TakenHead(s);
      if !s.reqs[y].slow && Req(x) in s.wq { NotHead(s.wq, Req(x), Req(y)); }
      if s.reqs[y].slow && x in s.slowq { NotHead(s.slowq, x, y); }
    }
  }

  /** Whoever is submitted goes to the end. */
  lemma SubmitQueues(s: State, id: nat, l: nat, slow: bool, wake: nat)
    ensures var s' := AfterSubmit(s, id, l, slow, wake);
      s'.loops == s.loops && s'.slowq == (if slow then s.slowq + [id] else s.slowq) &&
      s'.wq == (if !slow then s.wq + [Req(id)] else if s.runSlowLinked then s.wq else s.wq + [RunSlow]) &&
      id in s'.reqs && s'.reqs[id].slow == slow && s'.reqs[id].loop == l && Waits(s', id) &&
      !s'.reqs[id].place.Delivered? && s'.reqs.Keys == s.reqs.Keys + {id}
  {
    hide IsBlocked;
  }

  lemma LineSubmit(s: State, id: nat, l: nat, slow: bool, wake: nat, x: nat, y: nat)
    requires Inv(s) && id !in s.reqs && InLine(s, x, y)
    ensures InLine(AfterSubmit(s, id, l, slow, wake), x, y)
  {
    hide Inv, AfterSubmit, Precedes;
    SubmitQueues(s, id, l, slow, wake);
    SubmitAt(s, id, l, slow, wake, x);
    if y in s.reqs { SubmitAt(s, id, l, slow, wake, y); }
    if y == id { NewBehind(s, x, y); }
    if Precedes(s.wq, Req(x), Req(y)) {
      PrecedesMore(s.wq, Req(x), Req(y), Req(id));
      PrecedesMore(s.wq, Req(x), Req(y), RunSlow);
    }
    if Precedes(s.slowq, x, y) { PrecedesMore(s.slowq, x, y, id); }
  }

  lemma NewBehind(s: State, x: nat, y: nat)
    requires Inv(s) && y !in s.reqs
    ensures Precedes(s.wq, Req(x), Req(y)) && Precedes(s.slowq, x, y)
  {
    assert !Holds(s, y, InWork) && !Holds(s, y, InSlow);
  }

  lemma LineCancel(s: State, id: nat, x: nat, y: nat)
    requires Enabled(s, CancelStart(id)) && InLine(s, x, y)
    ensures InLine(AfterCancelStart(s, id), x, y)
  {
    hide Precedes, Remove;
    if Req(x) in Remove(s.wq, Req(id)) { RemoveHas(s.wq, Req(id), Req(x)); }
    if x in Remove(s.slowq, id) { RemoveHas(s.slowq, id, x); }
    if Precedes(s.wq, Req(x), Req(y)) { PrecedesRemove(s.wq, Req(x), Req(y), Req(id)); }
    if Precedes(s.slowq, x, y) { PrecedesRemove(s.slowq, x, y, id); }
  }

  lemma LineExit(s: State, wake: nat, x: nat, y: nat)
    requires InLine(s, x, y)
    ensures InLine(AfterPostExit(s, wake), x, y)
  {
    hide Precedes, SignalIfIdle;
    SignalQueues(s.(wq := s.wq + [ExitMsg], exiting := true), wake);
    if Precedes(s.wq, Req(x), Req(y)) { PrecedesMore(s.wq, Req(x), Req(y), ExitMsg); }
  }

  lemma LineWorker(s: State, e: Step, x: nat, y: nat)
    requires Inv(s) && Enabled(s, e) && InLine(s, x, y) && (e.Call? || e.Finish?)
    ensures InLine(Apply(s, e), x, y)
  {
    hide Precedes;
    assert Holds(s, s.workers[e.t].id, AtWorker(e.t));
  }

  lemma LineStep(s: State, e: Step, x: nat, y: nat)
    requires Inv(s) && Enabled(s, e) && InLine(s, x, y)
    ensures InLine(Apply(s, e), x, y)
  {
    hide Inv, AfterIterate, AfterSubmit, AfterCancelStart, AfterPostExit, CanSignal, Precedes;
    match e
    case Iterate(t, wake) => LineIterate(s, t, wake, x, y);
    case Submit(id, l, slow, wake) => LineSubmit(s, id, l, slow, wake, x, y);
    case CancelStart(id) => LineCancel(s, id, x, y);
    case PostExit(wake) => LineExit(s, wake, x, y);
    case Call(_) => LineWorker(s, e, x, y);
    case Finish(_) => LineWorker(s, e, x, y);
    case _ =>
  }

  lemma {:induction false} LineRun(s0: State, es: seq<Step>, s: State, x: nat, y: nat)
    requires Inv(s0) && InLine(s0, x, y) && Run(s0, es, s)
    ensures Inv(s) && InLine(s, x, y)
    decreases |es|
  {
    hide Inv, Enabled, Apply, InLine;
    if es != [] {
      LineStep(s0, es[0], x, y);
      StepKeeps(s0, es[0]);
      LineRun(Apply(s0, es[0]), es[1..], s, x, y);
    }
  }

  /** Requests of one sort are started in the order in which they were submitted: when a worker has
      had one that was submitted later, the earlier one is not queued any more. */
  lemma StartedInOrder(s: State, es: seq<Step>, s': State, x: nat, y: nat)
    requires Reachable(s) && x in s.reqs && y !in s.reqs && Run(s, es, s')
    requires y in s'.reqs && (s'.reqs[y].started || s'.reqs[y].place.AtWorker?)
    ensures x in s'.reqs
    ensures s'.reqs[x].slow == s'.reqs[y].slow ==> !s'.reqs[x].place.InWork? && !s'.reqs[x].place.InSlow?
  {
    hide Inv, Run;
    ReachableInv(s);
    assert InLine(s, x, y);
    LineRun(s, es, s', x, y);
    QueuedIs(s', x);
  }

  lemma QueuedIs(s: State, x: nat)
    requires Inv(s) && x in s.reqs
    ensures s.reqs[x].place.InWork? ==> Req(x) in s.wq && !s.reqs[x].slow
    ensures s.reqs[x].place.InSlow? ==> x in s.slowq && s.reqs[x].slow
  {
    assert Holds(s, x, s.reqs[x].place) && RequestOK(s, s.reqs[x]);
  }

  // ---------- Deliveries ----------

  /** What a loop still has to deliver, in this order. */
  function ToDeliver(l: Loop): seq<nat> { l.local + l.wq }

  ghost predicate IsDelivered(s: State, id: nat) {
    id in s.reqs && s.reqs[id].place.Delivered?
  }

  /** `x` has been run, and loop `l` delivers it before it delivers `y`. */
  ghost predicate FinishedFirst(s: State, l: nat, x: nat, y: nat) {
    x != y && l < |s.loops| && IsStarted(s, x) &&
    (IsDone(s, x) || (x in ToDeliver(s.loops[l]) && Precedes(ToDeliver(s.loops[l]), x, y)))
  }

  /** Steps that leave the loops alone. */
  lemma LoopsStay(s: State, e: Step)
    requires Enabled(s, e)
    requires !e.Finish? && !e.CancelStart? && !e.CancelFinish? && !e.Collect? && !e.Deliver?
    ensures Apply(s, e).loops == s.loops
  {
    hide IsBlocked, CanSignal, AfterIterate, AfterSubmit, SignalIfIdle, CanCancel;
    match e
    case Iterate(t, wake) => IterateQueues(s, t, wake);
    case Submit(id, l, slow, wake) => SubmitQueues(s, id, l, slow, wake);
    case PostExit(wake) => SignalQueues(s.(wq := s.wq + [ExitMsg], exiting := true), wake);
    case _ =>
  }

  /** A request that waits to be delivered after its work was run cannot be cancelled. */
  lemma RunIsFinal(s: State, l: nat, x: nat)
    requires Inv(s) && l < |s.loops| && IsStarted(s, x) && x in ToDeliver(s.loops[l])
    ensures !CanCancel(s.reqs[x])
    ensures forall t :: 0 <= t < |s.workers| && (s.workers[t].Taken? || s.workers[t].Running?) ==> s.workers[t].id != x
    ensures forall k :: 0 <= k < |s.loops| ==> s.loops[k].cancelling != Some(x)
  {
    assert Holds(s, x, InLoop(l)) || Holds(s, x, InLocal(l));
    assert RequestOK(s, s.reqs[x]);
    forall t | 0 <= t < |s.workers| && (s.workers[t].Taken? || s.workers[t].Running?) ensures s.workers[t].id != x {
      assert Holds(s, s.workers[t].id, AtWorker(t));
    }
    forall k | 0 <= k < |s.loops| ensures s.loops[k].cancelling != Some(x) {
      if s.loops[k].cancelling == Some(x) { assert Holds(s, x, Cancelling(k)); }
    }
  }

  /** More to deliver comes last. */
  lemma OneAtTheEnd(a: Loop, b: Loop, id: nat, x: nat, y: nat)
    requires b.local == a.local && b.wq == a.wq + [id] && id != x
    requires x in ToDeliver(a) && Precedes(ToDeliver(a), x, y)
    ensures x in ToDeliver(b) && Precedes(ToDeliver(b), x, y)
  {
    hide Precedes;
    assert ToDeliver(b) == ToDeliver(a) + [id];
    PrecedesMore(ToDeliver(a), x, y, id);
  }

  lemma PrecedesJoin<T>(a: seq<T>, b: seq<T>, x: T, y: T)
    ensures Precedes(a + b, x, y) <==> Precedes(a, x, y) && Precedes(b, x, y) && !(y in a && x in b)
  {
    var q := a + b;
    if Precedes(q, x, y) {
      forall i, j | 0 <= i < |a| && 0 <= j < |a| && a[i] == x && a[j] == y ensures i < j {
        assert q[i] == x && q[j] == y;
      }
      forall i, j | 0 <= i < |b| && 0 <= j < |b| && b[i] == x && b[j] == y ensures i < j {
        assert q[|a| + i] == x && q[|a| + j] == y;
      }
      forall i, j | 0 <= i < |b| && 0 <= j < |a| ensures b[i] != x || a[j] != y {
        assert q[j] == a[j] && q[|a| + i] == b[i];
      }
    }
  }

  lemma {:induction false} RemoveKeeps<T>(q: seq<T>, c: T, x: T)
    requires x in q && x != c
    ensures x in Remove(q, c)
  {
    if q[0] != c && x != q[0] { RemoveKeeps(q[1..], c, x); }
  }

  /** One that is cancelled leaves the others in order. */
  lemma OneLess(a: Loop, b: Loop, id: nat, x: nat, y: nat)
    requires b.local == Remove(a.local, id) && b.wq == Remove(a.wq, id) && id != x && x != y
    requires x in ToDeliver(a) && Precedes(ToDeliver(a), x, y)
    ensures x in ToDeliver(b) && Precedes(ToDeliver(b), x, y)
  {
    hide Precedes, Remove;
    PrecedesJoin(a.local, a.wq, x, y);
    PrecedesJoin(b.local, b.wq, x, y);
    PrecedesRemove(a.local, x, y, id);
    PrecedesRemove(a.wq, x, y, id);
    if x in a.local { RemoveKeeps(a.local, id, x); } else { RemoveKeeps(a.wq, id, x); }
    if y in b.local { RemoveHas(a.local, id, y); }
    if x in b.wq { RemoveHas(a.wq, id, x); }
  }

  lemma FirstDelivered(s: State, l: nat, x: nat, y: nat)
    requires Inv(s) && Enabled(s, Deliver(l)) && FinishedFirst(s, l, x, y)
    ensures FinishedFirst(Apply(s, Deliver(l)), l, x, y)
  {
    hide Inv, Precedes;
    StepCounts(s, Deliver(l), x);
    var a, b := s.loops[l], Apply(s, Deliver(l)).loops[l];
    assert ToDeliver(b) == ToDeliver(a)[1..];
    if !IsDone(s, x) && a.local[0] != x {
      PrecedesTail(ToDeliver(a), x, y);
      assert x in ToDeliver(a)[1..];
    }
  }

  lemma FirstElsewhere(s: State, e: Step, l: nat, x: nat, y: nat)
    requires Inv(s) && Enabled(s, e) && FinishedFirst(s, l, x, y)
    requires l < |Apply(s, e).loops| && Apply(s, e).loops[l] == s.loops[l]
    ensures FinishedFirst(Apply(s, e), l, x, y)
  {
    hide Inv, Precedes, Apply, Enabled;
    StepCounts(s, e, x);
  }

  lemma FirstMore(s: State, e: Step, l: nat, x: nat, y: nat)
    requires Inv(s) && Enabled(s, e) && FinishedFirst(s, l, x, y) && (e.Finish? || e.CancelFinish? || e.CancelStart?)
    ensures FinishedFirst(Apply(s, e), l, x, y)
  {
    hide Inv, Precedes, Remove, CanCancel;
    StepCounts(s, e, x);
    if !IsDone(s, x) {
      RunIsFinal(s, l, x);
      var a, b := s.loops[l], Apply(s, e).loops[l];
      match e
      case Finish(t) =>
        if b != a { OneAtTheEnd(a, b, s.workers[t].id, x, y); }
      case CancelFinish(k) =>
        if k == l { OneAtTheEnd(a, b, a.cancelling.value, x, y); }
      case CancelStart(id) =>
        if b != a { OneLess(a, b, id, x, y); }
    }
  }

  lemma FirstStep(s: State, e: Step, l: nat, x: nat, y: nat)
    requires Inv(s) && Enabled(s, e) && FinishedFirst(s, l, x, y)
    ensures FinishedFirst(Apply(s, e), l, x, y)
  {
    hide Inv, AfterIterate, AfterSubmit, AfterPostExit, CanSignal, Precedes;
    match e
    case Finish(_) => FirstMore(s, e, l, x, y);
    case CancelFinish(_) => FirstMore(s, e, l, x, y);
    case CancelStart(_) => FirstMore(s, e, l, x, y);
    case Collect(k) =>
      StepCounts(s, e, x);
      assert k == l ==> ToDeliver(Apply(s, e).loops[l]) == ToDeliver(s.loops[l]);
    case Deliver(k) =>
      if k == l { FirstDelivered(s, l, x, y); } else { FirstElsewhere(s, e, l, x, y); }
    case _ =>
      LoopsStay(s, e);
      FirstElsewhere(s, e, l, x, y);
  }

  lemma {:induction false} FirstRun(s0: State, es: seq<Step>, s: State, l: nat, x: nat, y: nat)
    requires Inv(s0) && FinishedFirst(s0, l, x, y) && Run(s0, es, s)
    ensures Inv(s) && FinishedFirst(s, l, x, y)
    decreases |es|
  {
    hide Inv, Enabled, Apply, FinishedFirst;
    if es != [] {
      FirstStep(s0, es[0], l, x, y);
      StepKeeps(s0, es[0]);
      FirstRun(Apply(s0, es[0]), es[1..], s, l, x, y);
    }
  }

  /** A loop calls callbacks in the order in which the work was done: when it is about to call that
      of a request that was finished later, it has called that of the earlier one. */
  lemma DeliveredInOrder(s: State, es: seq<Step>, s': State, l: nat, x: nat, y: nat)
    requires Reachable(s) && Run(s, es, s') && l < |s.loops| && x != y
    requires IsStarted(s, x) && x in ToDeliver(s.loops[l]) && y !in ToDeliver(s.loops[l])
    requires l < |s'.loops| && s'.loops[l].local != [] && s'.loops[l].local[0] == y
    ensures IsDone(s', x)
  {
    hide Inv, Run;
    ReachableInv(s);
    assert FinishedFirst(s, l, x, y);
    FirstRun(s, es, s', l, x, y);
    var q := ToDeliver(s'.loops[l]);
    assert q[0] == y;
    if !IsDone(s', x) { NotHead(q, x, y); }
  }
}
