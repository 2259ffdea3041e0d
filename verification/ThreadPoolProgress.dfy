/**
 Progress of the thread pool.  Once nothing more is submitted or cancelled, the steps that the
 workers and the loops still have to take are bounded, in whatever order they are taken, and
 when none is left every request has been delivered.
 */
module ThreadPoolProgress {
  import opened Common
  import opened ThreadPool

  /** A step of a worker or of a loop that has something to do; the others are taken by the
      program around the pool, or are wakeups without a cause. */
  predicate IsOwn(s: State, e: Step) {
    match e
    case Lock(_) => true
    case Iterate(_, _) => true
    case Call(_) => true
    case Finish(_) => true
    case CancelFinish(_) => true
    case Collect(l) => l < |s.loops| && s.loops[l].wq != []
    case Deliver(_) => true
    case _ => false
  }

  // ---------- What is left to do ----------

  /** A request on its way from the queue to its callback counts less at every station; a worker
      that has one counts for it. */
  function WorkerRank(p: Pc): nat {
    match p
    case Start(_) => 2
    case Woken => 2
    case Top => 1
    case Taken(_, _) => 6
    case Running(_, _) => 5
    case _ => 0
  }

  function WorkersRank(ws: seq<Pc>): nat {
    if ws == [] then 0 else WorkersRank(ws[..|ws| - 1]) + WorkerRank(ws[|ws| - 1])
  }

  /** A request behind the message for slow work counts one more: the message may be put behind it. */
  function QueueRank(q: seq<Item>): nat {
    if q == [] then 0
    else
      var init := q[..|q| - 1];
      QueueRank(init) +
      match q[|q| - 1]
      case Req(_) => if RunSlow in init then 9 else 8
      case RunSlow => 1
      case ExitMsg => 0
  }

  function LoopRank(l: Loop): nat {
    2 * |l.wq| + |l.local| + if l.cancelling.Some? then 3 else 0
  }

  function LoopsRank(ls: seq<Loop>): nat {
    if ls == [] then 0 else LoopsRank(ls[..|ls| - 1]) + LoopRank(ls[|ls| - 1])
  }

  function Rank(s: State): nat {
    WorkersRank(s.workers) + QueueRank(s.wq) + 8 * |s.slowq| + LoopsRank(s.loops)
  }

  lemma {:induction false} WorkerChange(ws: seq<Pc>, t: nat, p: Pc)
    requires t < |ws|
    ensures WorkersRank(ws[t := p]) + WorkerRank(ws[t]) == WorkersRank(ws) + WorkerRank(p)
  {
    var n := |ws| - 1;
    if t < n {
      assert ws[t := p][..n] == ws[..n][t := p];
      WorkerChange(ws[..n], t, p);
    } else {
      assert ws[t := p][..n] == ws[..n];
    }
  }

  lemma {:induction false} LoopChange(ls: seq<Loop>, l: nat, x: Loop)
    requires l < |ls|
    ensures LoopsRank(ls[l := x]) + LoopRank(ls[l]) == LoopsRank(ls) + LoopRank(x)
  {
    hide LoopRank;
    var n := |ls| - 1;
    if l < n {
      assert ls[l := x][..n] == ls[..n][l := x];
      LoopChange(ls[..n], l, x);
    } else {
      assert ls[l := x][..n] == ls[..n];
    }
  }

  lemma {:induction false} RequestFirst(q: seq<Item>)
    requires q != [] && q[0].Req?
    ensures QueueRank(q) == 8 + QueueRank(q[1..])
  {
    var n := |q| - 1;
    if n == 0 {
      assert q[..0] == [] && q[1..] == [];
    } else {
      RequestFirst(q[..n]);
      assert q[..n][1..] == q[1..][..n - 1];
      assert RunSlow in q[..n] <==> RunSlow in q[..n][1..];
    }
  }

  lemma {:induction false} RequestsOnly(q: seq<Item>)
    requires RunSlow !in q && ExitMsg !in q
    ensures QueueRank(q) == 8 * |q|
  {
    if q != [] { RequestsOnly(q[..|q| - 1]); }
  }

  lemma {:induction false} MessageFirst(q: seq<Item>)
    requires q != [] && q[0] == RunSlow && RunSlow !in q[1..] && ExitMsg !in q
    ensures QueueRank(q) == 1 + 9 * (|q| - 1)
  {
    var n := |q| - 1;
    if n == 0 {
      assert q[..0] == [];
    } else {
      assert q[..n][1..] == q[1..][..n - 1] && q[n] in q[1..] && q[n] in q;
      MessageFirst(q[..n]);
    }
  }

  lemma MessageLast(q: seq<Item>)
    ensures QueueRank(q + [RunSlow]) == QueueRank(q) + 1
  {
    assert (q + [RunSlow])[..|q|] == q;
  }

  // ---------- Every own step brings the end nearer ----------

  lemma SignalRank(s: State, wake: nat)
    ensures WorkersRank(SignalIfIdle(s, wake).workers) <= WorkersRank(s.workers) + 2
    ensures SignalIfIdle(s, wake) == s.(workers := SignalIfIdle(s, wake).workers)
    ensures |SignalIfIdle(s, wake).workers| == |s.workers|
    ensures forall t :: 0 <= t < |s.workers| && !s.workers[t].Blocked? ==>
      SignalIfIdle(s, wake).workers[t] == s.workers[t]
  {
    if IsBlocked(s, wake) { WorkerChange(s.workers, wake, Woken); }
  }

  /** A worker takes a request that has left the queues: they count eight less. */
  lemma TakeDown(s: State, s1: State, t: nat, id: nat, slow: bool)
    requires t < |s1.workers| && s1.workers[t].Top? && s1.loops == s.loops
    requires WorkersRank(s1.workers) <= WorkersRank(s.workers) + 2
    requires QueueRank(s1.wq) + 8 * |s1.slowq| + 8 <= QueueRank(s.wq) + 8 * |s.slowq|
    ensures Rank(Take(s1, t, id, slow)) < Rank(s)
  {
    WorkerChange(s1.workers, t, Taken(id, slow));
  }

  lemma IterateDown(s: State, t: nat, wake: nat)
    requires Inv(s) && !s.exiting && Enabled(s, Iterate(t, wake))
    ensures Rank(AfterIterate(s, t, wake)) < Rank(s) && !AfterIterate(s, t, wake).exiting
  {
    hide Placed, RequestsOK, CountersOK, MutexOK, AwakeOK, CanSignal, IsBlocked, QueueRank, SignalIfIdle, CountSlow,
      CountIdle, LoopsRank, WorkersRank;
    if MustWait(s) {
      WorkerChange(s.workers, t, Blocked);
    } else if s.wq[0].Req? {
      RequestFirst(s.wq);
      TakeDown(s, s.(wq := s.wq[1..]), t, s.wq[0].id, false);
    } else {
      assert s.wq[0] in s.wq;
      NoDupTail(s.wq);
      MessageFirst(s.wq);
      RequestsOnly(s.wq[1..]);
      MessageLast(s.wq[1..]);
      if s.slowRunning < Threshold(s) && s.slowq != [] { SlowDown(s, t, wake); }
    }
  }

  lemma SlowDown(s: State, t: nat, wake: nat)
    requires t < |s.workers| && s.workers[t].Top? && !s.exiting && !MustWait(s)
    requires s.wq[0].RunSlow? && s.slowRunning < Threshold(s) && s.slowq != []
    requires QueueRank(s.wq[1..] + [RunSlow]) == QueueRank(s.wq[1..]) + 1 <= QueueRank(s.wq)
    ensures Rank(AfterIterate(s, t, wake)) < Rank(s) && !AfterIterate(s, t, wake).exiting
  {
    hide QueueRank, LoopsRank, WorkersRank, IsBlocked, SignalIfIdle;
    var s2 := s.(wq := s.wq[1..], runSlowLinked := false, slowRunning := s.slowRunning + 1, slowq := s.slowq[1..]);
    if s2.slowq != [] {
      var s3 := s2.(wq := s2.wq + [RunSlow], runSlowLinked := true);
      SignalRank(s3, wake);
      TakeDown(s, SignalIfIdle(s3, wake), t, s.slowq[0], true);
    } else {
      TakeDown(s, s2, t, s.slowq[0], true);
    }
  }

  lemma FinishDown(s: State, t: nat)
    requires Enabled(s, Finish(t))
    ensures Rank(AfterFinish(s, t)) < Rank(s)
  {
    hide QueueRank, LoopsRank, WorkersRank;
    var l := s.reqs[s.workers[t].id].loop;
    WorkerChange(s.workers, t, Start(s.workers[t].slow));
    LoopChange(s.loops, l, AfterFinish(s, t).loops[l]);
  }

  lemma LoopDown(s: State, e: Step)
    requires Enabled(s, e) && IsOwn(s, e) && (e.CancelFinish? || e.Collect? || e.Deliver?)
    ensures Rank(Apply(s, e)) < Rank(s)
  {
    hide QueueRank, LoopsRank, WorkersRank;
    match e
    case CancelFinish(l) => LoopChange(s.loops, l, AfterCancelFinish(s, l).loops[l]);
    case Collect(l) => LoopChange(s.loops, l, AfterCollect(s, l).loops[l]);
    case Deliver(l) => LoopChange(s.loops, l, AfterDeliver(s, l).loops[l]);
  }

  lemma WorkerDown(s: State, e: Step)
    requires Inv(s) && Enabled(s, e) && (e.Lock? || e.Call?)
    ensures Rank(Apply(s, e)) < Rank(s)
  {
    hide Inv, QueueRank, LoopsRank, WorkersRank;
    match e
    case Lock(t) => WorkerChange(s.workers, t, Top);
    case Call(t) =>
      NotAborted(s, t);
      WorkerChange(s.workers, t, Running(s.workers[t].id, s.workers[t].slow));
  }

  lemma StepDown(s: State, e: Step)
    requires Inv(s) && !s.exiting && Enabled(s, e) && IsOwn(s, e)
    ensures Rank(Apply(s, e)) < Rank(s) && !Apply(s, e).exiting && Apply(s, e).reqs.Keys == s.reqs.Keys
  {
    hide Inv, Rank, AfterIterate, CanSignal;
    match e
    case Lock(_) => WorkerDown(s, e);
    case Iterate(t, wake) =>
      IterateDown(s, t, wake);
      IterateRequests(s, t, wake);
    case Call(_) => WorkerDown(s, e);
    case Finish(t) => FinishDown(s, t);
    case CancelFinish(_) => LoopDown(s, e);
    case Collect(_) => LoopDown(s, e);
    case Deliver(_) => LoopDown(s, e);
  }

  lemma TakeRequests(s: State, t: nat, id: nat, slow: bool)
    requires t < |s.workers|
    ensures Take(s, t, id, slow).reqs.Keys == s.reqs.Keys
  {
  }

  lemma IterateRequests(s: State, t: nat, wake: nat)
    requires t < |s.workers|
    ensures AfterIterate(s, t, wake).reqs.Keys == s.reqs.Keys
  {
    hide IsBlocked, Threshold, Take, Signal, SignalIfIdle;
    if !MustWait(s) && s.wq[0].ExitMsg? {
      SignalFields(s, wake);
    } else if !MustWait(s) && s.wq[0].Req? {
      TakeRequests(s.(wq := s.wq[1..]), t, s.wq[0].id, false);
    } else if !MustWait(s) && s.slowRunning < Threshold(s) && s.slowq != [] {
      var s2 := s.(wq := s.wq[1..], runSlowLinked := false, slowRunning := s.slowRunning + 1, slowq := s.slowq[1..]);
      var s3 := s2.(wq := s2.wq + [RunSlow], runSlowLinked := true);
      SignalFields(s3, wake);
      TakeRequests(if s2.slowq != [] then SignalIfIdle(s3, wake) else s2, t, s.slowq[0], true);
    }
  }

  lemma NotAborted(s: State, t: nat)
    requires Inv(s) && t < |s.workers| && s.workers[t].Taken? && s.workers[t].id in s.reqs
    ensures s.reqs[s.workers[t].id].work == Function
  {
    assert Holds(s, s.workers[t].id, AtWorker(t));
    assert RequestOK(s, s.reqs[s.workers[t].id]);
  }

  // ---------- When no own step is left ----------

  /** Only a worker holds the mutex, and nobody leaves before the exit message is posted. */
  ghost predicate Present(s: State) {
    (s.holder.Some? ==> s.holder.value < |s.workers|) &&
    (!s.exiting ==> NoneLeft(s.workers))
  }

  predicate NoneLeft(ws: seq<Pc>) {
    forall t :: 0 <= t < |ws| ==> !ws[t].Exited?
  }

  lemma PresentSignal(s: State, wake: nat)
    requires NoneLeft(s.workers)
    ensures NoneLeft(SignalIfIdle(s, wake).workers)
  {
  }

  lemma PresentTake(s: State, t: nat, id: nat, slow: bool)
    requires t < |s.workers| && (!s.exiting ==> NoneLeft(s.workers))
    ensures Present(Take(s, t, id, slow))
  {
  }

  lemma PresentIterate(s: State, t: nat, wake: nat)
    requires MessagesOK(s) && Present(s) && t < |s.workers|
    ensures Present(AfterIterate(s, t, wake))
  {
    hide Threshold, IsBlocked, Take, SignalIfIdle;
    if MustWait(s) {
    } else if s.wq[0].ExitMsg? {
      assert s.wq[0] in s.wq;
    } else if s.wq[0].Req? {
      PresentTake(s.(wq := s.wq[1..]), t, s.wq[0].id, false);
    } else if s.slowRunning < Threshold(s) && s.slowq != [] {
      PresentSlow(s, t, wake);
    }
  }

  lemma PresentSlow(s: State, t: nat, wake: nat)
    requires Present(s) && t < |s.workers| && !MustWait(s)
    requires s.wq[0].RunSlow? && s.slowRunning < Threshold(s) && s.slowq != []
    ensures Present(AfterIterate(s, t, wake))
  {
    hide Threshold, IsBlocked, Take, SignalIfIdle, NoneLeft;
    var s2 := s.(wq := s.wq[1..], runSlowLinked := false, slowRunning := s.slowRunning + 1, slowq := s.slowq[1..]);
    if s2.slowq != [] {
      var s3 := s2.(wq := s2.wq + [RunSlow], runSlowLinked := true);
      if !s.exiting { PresentSignal(s3, wake); }
      SignalRank(s3, wake);
      PresentTake(SignalIfIdle(s3, wake), t, s.slowq[0], true);
    } else {
      PresentTake(s2, t, s.slowq[0], true);
    }
  }

  lemma PresentStep(s: State, e: Step)
    requires Inv(s) && Present(s) && Enabled(s, e)
    ensures Present(Apply(s, e))
  {
    hide Placed, QueuesOK, RequestsOK, CountersOK, MutexOK, AwakeOK, CanSignal, Remove, AfterIterate, SignalIfIdle;
    match e
    case Iterate(t, wake) => PresentIterate(s, t, wake);
    case Submit(id, l, slow, wake) => PresentSubmit(s, id, l, slow, wake);
    case PostExit(wake) => SignalRank(s.(wq := s.wq + [ExitMsg], exiting := true), wake);
    case _ =>
  }

  lemma PresentSubmit(s: State, id: nat, l: nat, slow: bool, wake: nat)
    requires Present(s) && s.holder.None?
    ensures Present(AfterSubmit(s, id, l, slow, wake))
  {
    hide SignalIfIdle, NoneLeft;
    var s1 := s.(reqs := s.reqs[id := Request(l, slow, Function, true, if slow then InSlow else InWork, false, None)]);
    var s2 := s1.(slowq := s1.slowq + [id]);
    var s3 := if slow then s2.(wq := s2.wq + [RunSlow], runSlowLinked := true) else s1.(wq := s1.wq + [Req(id)]);
    if !s.exiting { PresentSignal(s3, wake); }
    SignalRank(s3, wake);
  }

  lemma {:induction false} PresentRun(s0: State, es: seq<Step>, s: State)
    requires Inv(s0) && Present(s0) && Run(s0, es, s)
    ensures Present(s)
    decreases |es|
  {
    hide Inv, Present, Enabled, Apply;
    if es != [] {
      PresentStep(s0, es[0]);
      StepKeeps(s0, es[0]);
      PresentRun(Apply(s0, es[0]), es[1..], s);
    }
  }

  /** No worker and no loop has anything to do. */
  ghost predicate Stuck(s: State) {
    forall e :: Enabled(s, e) ==> !IsOwn(s, e)
  }

  lemma StuckAsleep(s: State)
    requires Inv(s) && Present(s) && !s.exiting && Stuck(s)
    ensures forall t :: 0 <= t < |s.workers| ==> s.workers[t].Blocked?
  {
    hide Inv, CanSignal;
    var wake := SomeoneToWake(s);
    forall t | 0 <= t < |s.workers| ensures !s.workers[t].Top? {
      WorkerHas(s, t);
      assert IsOwn(s, Iterate(t, wake));
      assert !Enabled(s, Iterate(t, wake));
    }
    if s.holder.Some? { WorkerHas(s, s.holder.value); }
    forall t | 0 <= t < |s.workers| ensures s.workers[t].Blocked? {
      WorkerHas(s, t);
      assert IsOwn(s, Lock(t)) && IsOwn(s, Call(t)) && IsOwn(s, Finish(t));
      assert !Enabled(s, Lock(t)) && !Enabled(s, Call(t)) && !Enabled(s, Finish(t));
    }
  }

  lemma SomeoneToWake(s: State) returns (wake: nat)
    ensures CanSignal(s, wake)
  {
    if exists t :: IsBlocked(s, t) {
      wake :| IsBlocked(s, wake);
    } else {
      wake := 0;
    }
  }

  lemma WorkerHas(s: State, t: nat)
    requires Inv(s) && t < |s.workers|
    ensures s.workers[t].Taken? || s.workers[t].Running? ==>
      s.workers[t].id in s.reqs && s.reqs[s.workers[t].id].loop < |s.loops|
    ensures s.workers[t].Top? <==> s.holder == Some(t)
  {
    if s.workers[t].Taken? || s.workers[t].Running? {
      assert Holds(s, s.workers[t].id, AtWorker(t));
      assert RequestOK(s, s.reqs[s.workers[t].id]);
    }
  }

  lemma LoopHas(s: State, l: nat)
    requires Inv(s) && l < |s.loops|
    ensures s.loops[l].cancelling.Some? ==> s.loops[l].cancelling.value in s.reqs
    ensures s.loops[l].local != [] ==> s.loops[l].local[0] in s.reqs
  {
    if s.loops[l].cancelling.Some? { assert Holds(s, s.loops[l].cancelling.value, Cancelling(l)); }
    if s.loops[l].local != [] { assert Holds(s, s.loops[l].local[0], InLocal(l)); }
  }

  lemma StuckLoops(s: State)
    requires Inv(s) && Stuck(s)
    ensures forall l :: 0 <= l < |s.loops| ==> s.loops[l] == Loop([], [], None)
  {
    hide Inv;
    forall l | 0 <= l < |s.loops| ensures s.loops[l] == Loop([], [], None) {
      LoopHas(s, l);
      assert IsOwn(s, CancelFinish(l)) && IsOwn(s, Deliver(l));
      assert !Enabled(s, CancelFinish(l)) && !Enabled(s, Deliver(l));
      assert s.loops[l].wq != [] ==> IsOwn(s, Collect(l)) && !Enabled(s, Collect(l));
    }
  }

  /** The pool never comes to rest before every request has been delivered. */
  lemma StuckDelivered(s: State)
    requires Reachable(s) && !s.exiting && Stuck(s)
    ensures forall id :: id in s.reqs ==> s.reqs[id].place == Delivered
  {
    hide RequestsOK, QueuesOK, CountersOK, AwakeOK, MessagesOK, MutexOK, Stuck;
    ReachableInv(s);
    ReachablePresent(s);
    StuckAsleep(s);
    NothingForgotten(s);
    StuckLoops(s);
    forall id | id in s.reqs ensures s.reqs[id].place == Delivered {
      assert Holds(s, id, s.reqs[id].place);
    }
  }

  lemma ReachablePresent(s: State)
    requires Reachable(s)
    ensures Present(s)
  {
    var n: nat, m: nat, es: seq<Step> :| n > 0 && Run(Init(n, m), es, s);
    InitInv(n, m);
    PresentRun(Init(n, m), es, s);
  }

  // ---------- Runs of own steps ----------

  ghost predicate OwnRun(s0: State, es: seq<Step>, s: State)
    decreases |es|
  {
    if es == [] then s == s0
    else Enabled(s0, es[0]) && IsOwn(s0, es[0]) && OwnRun(Apply(s0, es[0]), es[1..], s)
  }

  /** However own steps are ordered, there are no more of them than the rank says. */
  lemma {:induction false} OwnRunsEnd(s0: State, es: seq<Step>, s: State)
    requires Inv(s0) && !s0.exiting && OwnRun(s0, es, s)
    ensures |es| + Rank(s) <= Rank(s0) && !s.exiting && s.reqs.Keys == s0.reqs.Keys
    decreases |es|
  {
    hide Inv, Enabled, Apply, IsOwn, Rank;
    if es != [] {
      StepDown(s0, es[0]);
      StepKeeps(s0, es[0]);
      OwnRunsEnd(Apply(s0, es[0]), es[1..], s);
    }
  }

  lemma {:induction false} OwnRunRuns(s0: State, es: seq<Step>, s: State)
    requires OwnRun(s0, es, s)
    ensures Run(s0, es, s)
    decreases |es|
  {
    hide Enabled, Apply, IsOwn;
    if es != [] { OwnRunRuns(Apply(s0, es[0]), es[1..], s); }
  }

  lemma {:induction false} RunsJoin(s0: State, es: seq<Step>, s1: State, es': seq<Step>, s: State)
    requires Run(s0, es, s1) && Run(s1, es', s)
    ensures Run(s0, es + es', s)
    decreases |es|
  {
    hide Enabled, Apply;
    if es == [] {
      assert es + es' == es';
    } else {
      assert (es + es')[1..] == es[1..] + es';
      RunsJoin(Apply(s0, es[0]), es[1..], s1, es', s);
    }
  }

  lemma StaysReachable(s: State, es: seq<Step>, s': State)
    requires Reachable(s) && Run(s, es, s')
    ensures Reachable(s')
  {
    hide Run;
    var n: nat, m: nat, es0: seq<Step> :| n > 0 && Run(Init(n, m), es0, s);
    RunsJoin(Init(n, m), es0, s, es, s');
  }

  /** Once nothing more is submitted or cancelled: in whatever order workers and loops take their
      steps, they come to rest after a bounded number, and then every request has been delivered. */
  lemma EverythingDelivered(s: State, es: seq<Step>, s': State)
    requires Reachable(s) && !s.exiting && OwnRun(s, es, s')
    ensures |es| <= Rank(s)
    ensures Stuck(s') ==> forall id :: id in s.reqs ==> id in s'.reqs && s'.reqs[id].place == Delivered
  {
    hide Run, OwnRun, Enabled, IsOwn, Inv, Reachable, Stuck, Rank;
    ReachableInv(s);
    OwnRunsEnd(s, es, s');
    OwnRunRuns(s, es, s');
    StaysReachable(s, es, s');
    if Stuck(s') { StuckDelivered(s'); }
  }

  /** There is such an order. */
  lemma {:induction false} ComesToRest(s: State) returns (es: seq<Step>, s': State)
    requires Inv(s) && !s.exiting
    ensures OwnRun(s, es, s') && Stuck(s')
    decreases Rank(s)
  {
    hide Inv, Enabled, IsOwn, Apply, Rank;
    if Stuck(s) {
      es, s' := [], s;
    } else {
      var e :| Enabled(s, e) && IsOwn(s, e);
      StepDown(s, e);
      StepKeeps(s, e);
      var rest;
      rest, s' := ComesToRest(Apply(s, e));
      es := [e] + rest;
      assert es[1..] == rest;
    }
  }
}
