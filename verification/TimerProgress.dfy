/**
  What must happen: left to themselves, message thread, poll thread and kernel come to rest after
  boundedly many steps however they are scheduled, and then every timer that was due has been
  called back. And what should not happen but does: two runs with a callback before its time.
 */
module TimerProgress {
  import opened Wrappers
  import opened LocHeapSpec
  import opened TimerProtocol
  import opened TimerLifetime
  import opened TimerCoverage
  import opened TimerAccounts
  import opened TimerTheorems

  /** The steps that are not a client's and not the clock's. */
  predicate Internal(e: Event) {
    e.KernelFire? || e.PollWake? || e.PollCall? || e.Take? || e.UpdateCall? || e.Delete?
    || e.ReadClient? || e.StopClient? || e.Callback? || e.PopNext?
  }

  // ---------- A bound on the internal steps ----------

  function MsgWeight(m: Msg): nat {
    match m
    case PushMsg(_, _) => 24
    case RemoveMsg(_, _) => 11
    case ExpireMsg(_) => 1
  }

  function QueueWeight(log: seq<Msg>, taken: nat): nat
    decreases |log|
  {
    if |log| <= taken then 0 else QueueWeight(log[..|log| - 1], taken) + MsgWeight(log[|log| - 1])
  }

  lemma SendWeighs(log: seq<Msg>, taken: nat, m: Msg)
    requires taken <= |log|
    ensures QueueWeight(log + [m], taken) == QueueWeight(log, taken) + MsgWeight(m)
  {
    assert (log + [m])[..|log|] == log;
  }

  lemma {:induction false} TakeLightens(log: seq<Msg>, taken: nat)
    requires taken < |log|
    ensures QueueWeight(log, taken) == QueueWeight(log, taken + 1) + MsgWeight(log[taken])
    decreases |log|
  {
    if taken + 1 < |log| {
      TakeLightens(log[..|log| - 1], taken);
    }
  }

  function AttachedCount(ds: seq<Delegate>): nat {
    if ds == [] then 0
    else AttachedCount(ds[..|ds| - 1]) + (if ds[|ds| - 1].client.Some? then 1 else 0)
  }

  lemma {:induction false} AttachedUpdate(ds: seq<Delegate>, i: nat, d: Delegate)
    requires i < |ds|
    ensures AttachedCount(ds[i := d]) == AttachedCount(ds)
              - (if ds[i].client.Some? then 1 else 0) + (if d.client.Some? then 1 else 0)
  {
    var n := |ds| - 1;
    if i == n {
      assert ds[i := d][..n] == ds[..n];
    } else {
      assert ds[i := d][..n] == ds[..n][i := d];
      AttachedUpdate(ds[..n], i, d);
    }
  }

  /** Where the poll thread is with `k`: 0 when it has no event of it, else one more than the number
      of the calls of LocTimerContainer::expire that it has made. */
  function PollStage(p: Poller, k: Kind): nat {
    if p.Waiting? || k !in p.events then 0
    else if p.events[0] != k || p.calls == 0 then 1
    else if p.calls == 1 then 2
    else 3
  }

  function KernelWeight(kernel: Kernel, stage: nat): nat {
    var armed := if kernel.Disarmed? then 0 else if kernel.Fired? then 5 else 6;
    if stage == 0 then armed
    else if stage == 1 then (if kernel.Armed? then 5 else 4)
    else if stage == 2 then armed + 3
    else armed + 2
  }

  function CallsWeight(calls: seq<Call>): nat {
    if calls == [] then 0 else (if calls[0].SetTime? then 7 else 1) + CallsWeight(calls[1..])
  }

  function TaskWeight(t: Task): nat {
    match t
    case Idle => 0
    case Updating(_, calls, _) => 1 + CallsWeight(calls)
    case Expiring(_, _, _, _, stage) =>
      if stage.Popped? then 13 else if stage.Stopping? then 12 else if stage.Calling? then 11 else 10
  }

  ghost function Measure(s: State): nat {
    QueueWeight(s.log, s.taken) + 11 * AttachedCount(s.delegates)
    + 14 * Nodes(s.sw.heap) + 14 * Nodes(s.hw.heap)
    + KernelWeight(s.sw.kernel, PollStage(s.poller, Sw)) + KernelWeight(s.hw.kernel, PollStage(s.poller, Hw))
    + TaskWeight(s.task)
  }

  lemma UpdateWeighs(kind: Kind, cur: Option<Timer>, prior: Option<Timer>, victim: Option<nat>)
    ensures TaskWeight(Update(kind, UpdateSoonestTime(cur, prior), victim)) <= 9
    ensures TaskWeight(Update(kind, [], victim)) <= 9
    ensures UpdateSoonestTime(cur, prior) == [] && victim.None? ==> TaskWeight(Update(kind, UpdateSoonestTime(cur, prior), victim)) == 0
  {
    var calls := UpdateSoonestTime(cur, prior);
    if calls != [] {
      assert calls[1..] == [calls[1]] && [calls[1]][1..] == [];
      assert CallsWeight([calls[1]]) == 7;
    }
  }

  lemma MeasureOfPush(s: State, k: Kind, d: nat, s': State)
    requires s.task == Idle && s.taken < |s.log| && s.log[s.taken] == PushMsg(k, d)
    requires d < |s.delegates| && s' == TakeMsg(s)
    ensures Measure(s') < Measure(s)
  {
    TakeLightens(s.log, s.taken);
    PushCount(s.Heap(k), s.TimerOf(d), Earlier);
    UpdateWeighs(k, Peek(s'.Heap(k)), Peek(s.Heap(k)), None);
  }

  lemma RemoveNeverGrows(h: Tree<Timer>, x: Timer)
    ensures Remove(h, x, Earlier).Some? ==> Nodes(Remove(h, x, Earlier).value) < Nodes(h)
  {
    if Remove(h, x, Earlier).Some? { RemoveElems(h, x, Earlier); }
  }

  lemma MeasureOfRemove(s: State, k: Kind, d: nat, s': State)
    requires s.task == Idle && s.taken < |s.log| && s.log[s.taken] == RemoveMsg(k, d)
    requires d < |s.delegates| && s' == TakeMsg(s)
    ensures Measure(s') < Measure(s)
  {
    TakeLightens(s.log, s.taken);
    RemoveNeverGrows(s.Heap(k), s.TimerOf(d));
    UpdateWeighs(k, Peek(s'.Heap(k)), None, Some(d));
  }

  lemma MeasureOfExpire(s: State, k: Kind, s': State)
    requires s.task == Idle && s.taken < |s.log| && s.log[s.taken] == ExpireMsg(k) && s' == TakeMsg(s)
    ensures Measure(s') < Measure(s)
  {
    hide Pop, Nodes, QueueWeight, AttachedCount, KernelWeight, PollStage;
    TakeLightens(s.log, s.taken);
    if s.Heap(k).Node? { PopElems(s.Heap(k), Earlier); }
  }

  lemma MeasureOfPollWake(s: State, events: seq<Kind>, s': State)
    requires Enabled(s, PollWake(events)) && s' == Apply(s, PollWake(events))
    ensures Measure(s') < Measure(s)
  {
    assert events[0] in events;
    assert PollStage(s'.poller, events[0]) == 1;
  }

  lemma MeasureOfPollCall(s: State, s': State)
    requires PollerOk(s.poller) && s.taken <= |s.log| && Enabled(s, PollCall) && s' == Apply(s, PollCall)
    ensures Measure(s') < Measure(s)
  {
    hide Nodes, AttachedCount, QueueWeight;
    var k := s.poller.events[0];
    var other := Other(k);
    SendWeighs(s.log, s.taken, ExpireMsg(k));
    assert PollStage(s.poller, other) == PollStage(s'.poller, other) by {
      assert |s.poller.events| == 1 ==> s.poller.events == [k];
      assert |s.poller.events| == 2 ==> s.poller.events == [k, other];
    }
    assert PollStage(s'.poller, k) == if PollStage(s.poller, k) == 3 then 0 else PollStage(s.poller, k) + 1 by {
      assert |s.poller.events| == 1 ==> s.poller.events == [k];
      assert |s.poller.events| == 2 ==> s.poller.events == [k, other];
    }
  }

  lemma MeasureOfStop(s: State, s': State)
    requires Life(s) && Enabled(s, StopClient) && s' == Apply(s, StopClient)
    ensures Measure(s') < Measure(s)
  {
    var c := s.task.stage.client;
    assert ClientOk(s, c);
    if HasTimer(s, c) {
      var d := s.clients[c].timer.value;
      AttachedUpdate(s.delegates, d, s'.delegates[d]);
      SendWeighs(s.log, s.taken, RemoveMsg(s.delegates[d].kind, d));
    }
  }

  lemma MeasureOfPopNext(s: State, s': State)
    requires Enabled(s, PopNext) && s' == PopIfDue(s)
    ensures Measure(s') < Measure(s)
  {
    var k := s.task.kind;
    var h := s.Heap(k);
    if h.Node? { PopElems(h, Earlier); }
    UpdateWeighs(k, Peek(h), None, None);
  }

  lemma CallWeighs(c: Container, call: Call, stage: nat)
    ensures KernelWeight(Do(c, call).kernel, stage) <= KernelWeight(c.kernel, stage) + (if call.SetTime? then 6 else 0)
    ensures Do(c, call).heap == c.heap
  {
  }

  lemma MeasureOfUpdateCall(s: State, s': State)
    requires Enabled(s, UpdateCall) && s' == Apply(s, UpdateCall)
    ensures Measure(s') < Measure(s)
  {
    var t := s.task;
    CallWeighs(s.At(t.kind), t.calls[0], PollStage(s.poller, t.kind));
    assert TaskWeight(s'.task) + (if t.calls[0].SetTime? then 7 else 1) <= TaskWeight(t);
  }

  lemma MeasureOfOtherStep(s: State, e: Event, s': State)
    requires e.KernelFire? || e == Delete || e == ReadClient || e == Callback
    requires Enabled(s, e) && s' == Apply(s, e)
    ensures Measure(s') < Measure(s)
  {
    hide Push, Pop, Remove, Nodes, QueueWeight, AttachedCount, UpdateSoonestTime;
    if e == Delete {
      AttachedUpdate(s.delegates, s.task.victim.value, s'.delegates[s.task.victim.value]);
    }
  }

  /** Every internal step makes the measure smaller. */
  lemma MeasureOfStep(s: State, e: Event, s': State)
    requires Life(s) && PollerOk(s.poller) && Internal(e) && Enabled(s, e) && s' == Apply(s, e)
    ensures Measure(s') < Measure(s)
  {
    match e
    case PollWake(events) => MeasureOfPollWake(s, events, s');
    case PollCall => MeasureOfPollCall(s, s');
    case Take =>
      match s.log[s.taken] {
        case PushMsg(k, d) => MeasureOfPush(s, k, d, s');
        case RemoveMsg(k, d) => MeasureOfRemove(s, k, d, s');
        case ExpireMsg(k) => MeasureOfExpire(s, k, s');
      }
    case UpdateCall => MeasureOfUpdateCall(s, s');
    case StopClient => MeasureOfStop(s, s');
    case PopNext => MeasureOfPopNext(s, s');
    case _ => MeasureOfOtherStep(s, e, s');
  }

  // ---------- Coming to rest ----------

  /** No internal step is possible. */
  ghost predicate AtRest(s: State) {
    forall e: Event :: Internal(e) ==> !Enabled(s, e)
  }

  lemma TaskCanGoOn(s: State)
    requires Life(s) && ThreadsOk(s)
    ensures s.task == Idle && s.taken < |s.log| ==> Enabled(s, Take)
    ensures s.task.Updating? ==> Enabled(s, UpdateCall) || Enabled(s, Delete)
    ensures s.task.Expiring? ==> Enabled(s, ReadClient) || Enabled(s, StopClient) || Enabled(s, Callback) || Enabled(s, PopNext)
  {
    if s.task == Idle && s.taken < |s.log| {
      MsgKnown(s);
    } else if s.task.Updating? && s.task.victim.Some? {
      assert DelegateOk(s, s.task.victim.value);
    } else if s.task.Expiring? && s.task.stage.Popped? {
      assert DelegateOk(s, s.task.stage.id);
    }
  }

  /** The message thread can always go on with what it is doing: no guard of its steps fails. */
  lemma MessageThreadNeverStuck(s: State)
    requires Reachable(s)
    ensures s.task == Idle && s.taken < |s.log| ==> Enabled(s, Take)
    ensures s.task.Updating? ==> Enabled(s, UpdateCall) || Enabled(s, Delete)
    ensures s.task.Expiring? ==> Enabled(s, ReadClient) || Enabled(s, StopClient) || Enabled(s, Callback) || Enabled(s, PopNext)
  {
    ReachableInv(s);
    TaskCanGoOn(s);
  }

  lemma RestOfThreads(s: State)
    requires Inv(s) && AtRest(s)
    ensures s.task == Idle && s.taken == |s.log| && s.poller == Waiting
  {
    TaskCanGoOn(s);
    assert Internal(Take) && Internal(UpdateCall) && Internal(Delete) && Internal(ReadClient)
           && Internal(StopClient) && Internal(Callback) && Internal(PopNext) && Internal(PollCall);
    assert !Enabled(s, Take) && !Enabled(s, UpdateCall) && !Enabled(s, Delete) && !Enabled(s, ReadClient)
           && !Enabled(s, StopClient) && !Enabled(s, Callback) && !Enabled(s, PopNext) && !Enabled(s, PollCall);
  }

  lemma RestOfKernel(s: State, k: Kind)
    requires Inv(s) && AtRest(s) && s.Heap(k).Node?
    ensures s.clock < s.Heap(k).data.due
  {
    RestOfThreads(s);
    assert CoverOk(s, k);
    assert Covered(s, k) && !Handles(s, k) && !Pending(s, k);
    assert Watched(s.At(k));
    assert Internal(KernelFire(k)) && Internal(PollWake([k]));
    assert !Enabled(s, KernelFire(k)) && !Enabled(s, PollWake([k]));
  }

  /** At rest every timer that is set lies in the future. */
  lemma RestOfTimers(s: State, d: nat)
    requires Inv(s) && AtRest(s) && d < |s.delegates| && s.delegates[d].client.Some?
    ensures s.clock < s.delegates[d].due
  {
    RestOfThreads(s);
    assert DelegateOk(s, d) && Tracked(s, d);
    var k := s.delegates[d].kind;
    assert HeapOk(s, k);
    TopIsSoonest(s.Heap(k), s.TimerOf(d));
    RestOfKernel(s, k);
  }

  /** What internal steps leave to the clients: the clock, the deadlines, the counts of starts and
      stops; and they never set a timer. */
  ghost predicate LeavesToClients(s: State, s': State) {
    && s'.clock == s.clock
    && |s'.delegates| == |s.delegates| && |s'.clients| == |s.clients|
    && (forall d: nat :: d < |s.delegates| ==> s'.delegates[d].due == s.delegates[d].due)
    && (forall c: nat :: c < |s.clients| ==>
          && s'.clients[c].starts == s.clients[c].starts && s'.clients[c].stops == s.clients[c].stops
          && (s'.clients[c].timer == None || s'.clients[c].timer == s.clients[c].timer))
  }

  lemma InternalStepLeaves(s: State, e: Event, s': State)
    requires Internal(e) && Enabled(s, e) && s' == Apply(s, e)
    ensures LeavesToClients(s, s')
  {
    hide Push, Pop, Remove, Do, UpdateSoonestTime;
  }

  lemma {:induction false} InternalRun(s: State, events: seq<Event>)
    requires Inv(s) && IsRun(s, events) && forall e :: e in events ==> Internal(e)
    ensures Inv(After(s, events)) && LeavesToClients(s, After(s, events))
    ensures |events| + Measure(After(s, events)) <= Measure(s)
    decreases |events|
  {
    if events != [] {
      var e := events[0];
      var s' := Apply(s, e);
      InvOfStep(s, e, s');
      MeasureOfStep(s, e, s');
      InternalStepLeaves(s, e, s');
      InternalRun(s', events[1..]);
    }
  }

  /** However message thread, poll thread and kernel are scheduled, they take at most Measure(s)
      steps without a client or the clock. */
  lemma InternalRunsAreBounded(s: State, events: seq<Event>)
    requires Reachable(s) && IsRun(s, events) && forall e :: e in events ==> Internal(e)
    ensures |events| <= Measure(s)
  {
    ReachableInv(s);
    InternalRun(s, events);
  }

  /** And when they can go no further, every timer that was set and due has been stopped by its
      expiry and its client called back, exactly once for it. */
  lemma EveryDueTimerIsCalledBack(s: State, events: seq<Event>, c: nat, d: nat)
    requires Reachable(s) && IsRun(s, events) && (forall e :: e in events ==> Internal(e))
    requires AtRest(After(s, events))
    requires c < |s.clients| && d < |s.delegates| && s.clients[c].timer == Some(d) && s.delegates[d].due <= s.clock
    ensures var s' := After(s, events);
            && c < |s'.clients| && s'.clients[c].timer == None
            && s'.clients[c].callbacks == s.clients[c].callbacks + 1
                 + (if s.task.Expiring? && s.task.stage == Calling(c) then 1 else 0)
  {
    ReachableInv(s);
    InternalRun(s, events);
    var s' := After(s, events);
    RestOfThreads(s');
    assert CountsOk(s, c) && CountsOk(s', c);
    if s'.clients[c].timer == Some(d) {
      assert ClientOk(s', c);
      RestOfTimers(s', d);
    }
  }

  lemma {:induction false} RestFrom(s: State) returns (events: seq<Event>)
    requires Inv(s)
    ensures IsRun(s, events) && (forall e :: e in events ==> Internal(e)) && AtRest(After(s, events))
    decreases Measure(s)
  {
    if AtRest(s) {
      events := [];
    } else {
      var e: Event :| Internal(e) && Enabled(s, e);
      var s' := Apply(s, e);
      InvOfStep(s, e, s');
      MeasureOfStep(s, e, s');
      var rest := RestFrom(s');
      events := [e] + rest;
      assert events[1..] == rest;
    }
  }

  /** There is such a run from every state. */
  lemma CanComeToRest(s: State) returns (events: seq<Event>)
    requires Reachable(s)
    ensures IsRun(s, events) && (forall e :: e in events ==> Internal(e)) && AtRest(After(s, events))
  {
    ReachableInv(s);
    events := RestFrom(s);
  }

  /** A timer that is set gets its callback without any help from its client: once the clock has
      reached the deadline, the service alone goes on to a state at rest, where it has been made. */
  lemma SetTimerIsCalledBack(s: State, c: nat, d: nat, now: nat) returns (events: seq<Event>)
    requires Reachable(s) && c < |s.clients| && d < |s.delegates| && s.clients[c].timer == Some(d)
    requires s.clock <= now && ReadingOk(now) && s.delegates[d].due <= now
    ensures forall e :: e in events ==> Internal(e)
    ensures Enabled(s, Tick(now)) && IsRun(Apply(s, Tick(now)), events)
    ensures var s' := After(Apply(s, Tick(now)), events);
            && AtRest(s') && s'.clock == now && c < |s'.clients| && s'.clients[c].timer == None
            && s'.clients[c].callbacks == s.clients[c].callbacks + 1
                 + (if s.task.Expiring? && s.task.stage == Calling(c) then 1 else 0)
  {
    hide AtRest, Inv, After, IsRun;
    var s1 := Apply(s, Tick(now));
    ReachableStep(s, Tick(now));
    events := CanComeToRest(s1);
    EveryDueTimerIsCalledBack(s1, events, c, d);
    ReachableInv(s1);
    InternalRun(s1, events);
  }
}
