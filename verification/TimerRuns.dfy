/**
  What a run does between two of its steps: the deadline that a start sets, up to the callback; the
  clock reading that an Expire message works with, up to the end of its loop; and the effect of the
  calls of one message, or of one kernel event, that nothing comes between.
 */
module TimerRuns {
  import opened Wrappers
  import opened Deadline
  import opened LocHeapSpec
  import opened TimerProtocol
  import opened TimerLifetime
  import opened TimerAccounts
  import opened TimerTheorems

  // ---------- The deadline of a start ----------

  /** Nobody changes the deadline, the container or the owner of a delegate, nor a sent message. */
  ghost predicate Keeps(s: State, s': State) {
    && s.clock <= s'.clock && |s.clients| <= |s'.clients|
    && |s.delegates| <= |s'.delegates| && |s.log| <= |s'.log|
    && (forall d: nat {:trigger s'.delegates[d]} :: d < |s.delegates| ==>
          && s'.delegates[d].due == s.delegates[d].due && s'.delegates[d].kind == s.delegates[d].kind
          && s'.delegates[d].owner == s.delegates[d].owner)
    && (forall i: nat {:trigger s'.log[i]} :: i < |s.log| ==> s'.log[i] == s.log[i])
  }

  lemma StepKeeps(s: State, e: Event, s': State)
    requires Enabled(s, e) && s' == Apply(s, e)
    ensures Keeps(s, s')
  {
    hide Push, Pop, Remove, Do, UpdateSoonestTime, NotInFuture, Update;
  }

  lemma {:induction false} RunKeeps(s: State, events: seq<Event>)
    requires IsRun(s, events)
    ensures Keeps(s, After(s, events))
    decreases |events|
  {
    hide Apply, Enabled;
    if events != [] {
      var s1 := Apply(s, events[0]);
      StepKeeps(s, events[0], s1);
      RunKeeps(s1, events[1..]);
    }
  }

  /** A start with no timer set makes a new delegate in the container asked for, due the timeout
      after the reading of the clock, sends its Push message there, and that is how they stay. */
  lemma StartSetsDeadline(s: State, c: nat, ms: nat, kind: Kind, events: seq<Event>)
    requires Reachable(s) && Enabled(s, Start(c, ms, kind)) && s.clients[c].timer == None
    requires IsRun(Apply(s, Start(c, ms, kind)), events)
    ensures var d, s1 := |s.delegates|, Apply(s, Start(c, ms, kind));
            s1.clients[c].timer == Some(d) && s1.delegates[d].client == Some(c)
    ensures var d, s' := |s.delegates|, After(Apply(s, Start(c, ms, kind)), events);
            && d < |s'.delegates| && s'.delegates[d].owner == c && s'.delegates[d].kind == kind
            && OfNs(s'.delegates[d].due) == Later(OfNs(s.clock), ms)
            && s'.delegates[d].due == s.clock + ms * 1000000
            && |s.log| < |s'.log| && s'.log[|s.log|] == PushMsg(kind, d)
  {
    hide IsRun, After;
    LaterIsExact(s.clock, ms);
    RunKeeps(Apply(s, Start(c, ms, kind)), events);
  }

  /** A start that finds a timer set changes nothing. */
  lemma StartWhileSet(s: State, c: nat, ms: nat, kind: Kind)
    requires Enabled(s, Start(c, ms, kind))
    ensures Apply(s, Start(c, ms, kind)) == s <==> s.clients[c].timer.Some?
  {
  }

  /** The callback of a start comes no sooner than its timeout after it, provided that the top was
      due when the Expire message was taken, and that the client made no stop() of its own between
      the read of mClient and the stop() of expire(). */
  lemma CalledBackInTime(s: State, c: nat, ms: nat, kind: Kind, before: seq<Event>, between: seq<Event>)
    requires Reachable(s) && Enabled(s, Start(c, ms, kind)) && s.clients[c].timer == None
    requires IsRun(Apply(s, Start(c, ms, kind)), before)
    requires var s1 := After(Apply(s, Start(c, ms, kind)), before);
             && Enabled(s1, ReadClient) && s1.task.stage == Popped(|s.delegates|)
             && s1.delegates[|s.delegates|].client == Some(c)
             && s1.task.start.Node? && s1.task.start.data.due <= s1.task.now
             && IsRun(Apply(s1, ReadClient), between) && StopClient !in between && Stop(c) !in between
    ensures var s2 := After(Apply(After(Apply(s, Start(c, ms, kind)), before), ReadClient), between);
            && Enabled(s2, StopClient) && Apply(s2, StopClient).task.stage == Calling(c)
            && s2.clients[c].timer == Some(|s.delegates|)
            && s.clock + ms * 1000000 <= s2.clock
  {
    hide Apply, After, SetBy;
    var d := |s.delegates|;
    var e := Start(c, ms, kind);
    var s0 := Apply(s, e);
    var s1 := After(s0, before);
    var s1' := Apply(s1, ReadClient);
    StartSetsDeadline(s, c, ms, kind, before);
    ReachableStep(s, e);
    ReachableRun(s0, before);
    StopHitsPoppedTimer(s1, between, c, d);
    StepKeeps(s1, ReadClient, s1');
    RunKeeps(s1', between);
  }

  // ---------- The clock of an Expire message ----------

  /** Taking an Expire message reads the clock, once, and pops the top of the heap it finds. */
  lemma ExpireBegins(s: State, k: Kind)
    requires Enabled(s, Take) && s.log[s.taken] == ExpireMsg(k)
    ensures var t := Apply(s, Take).task;
            if s.Heap(k).Leaf? then !t.Expiring? && Apply(s, Take).Heap(k) == Leaf
            else t.Expiring? && t.kind == k && t.now == s.clock && t.start == s.Heap(k)
  {
  }

  ghost predicate SameLoop(t: Task, t': Task) {
    t.Expiring? && t'.Expiring? && t'.kind == t.kind && t'.now == t.now && t'.start == t.start
  }

  lemma LoopGoesOn(s: State, e: Event, s': State)
    requires Enabled(s, e) && e != Take && s' == Apply(s, e)
    ensures s'.task.Expiring? ==> SameLoop(s.task, s'.task)
  {
    hide Push, Pop, Remove, Do, UpdateSoonestTime, NotInFuture;
  }

  /** No loop begins without a message being taken. */
  lemma {:induction false} LoopOfRun(s: State, events: seq<Event>)
    requires IsRun(s, events) && Take !in events && After(s, events).task.Expiring?
    ensures SameLoop(s.task, After(s, events).task)
    decreases |events|
  {
    hide Apply, Enabled;
    if events != [] {
      var s1 := Apply(s, events[0]);
      LoopOfRun(s1, events[1..]);
      LoopGoesOn(s, events[0], s1);
    }
  }

  /** From the moment an Expire message is taken to the end of its loop, whatever other threads do
      and however far the clock moves: the heap ends up without the timers that were due when the
      message was taken. The top is popped in any case, and nothing but what was due, and all of
      that, if and only if the top was due. */
  lemma ExpiryBatchOfRun(s: State, k: Kind, events: seq<Event>)
    requires Reachable(s) && Enabled(s, Take) && s.log[s.taken] == ExpireMsg(k)
    requires IsRun(Apply(s, Take), events) && Take !in events
    requires var s1 := After(Apply(s, Take), events); Enabled(s1, PopNext) && !Apply(s1, PopNext).task.Expiring?
    ensures var s1 := After(Apply(s, Take), events);
            var popped, left := s1.task.batch, Apply(s1, PopNext).Heap(k);
            && s.Heap(k).Node? && popped != [] && popped[0] == s.Heap(k).data
            && Elems(s.Heap(k)) == multiset(popped) + Elems(left)
            && (forall x :: x in Elems(left) ==> s.clock < x.due)
            && InOrder(popped[1..], s.Heap(k).data.due, s.clock)
            && (s.Heap(k).data.due <= s.clock <==> forall x :: x in popped ==> x.due <= s.clock)
            && (s.Heap(k).data.due <= s.clock ==>
                  forall x :: multiset(popped)[x] == if x.due <= s.clock then Elems(s.Heap(k))[x] else 0)
  {
    hide IsRun, After, Elems, InOrder, Pop;
    var s1 := After(Apply(s, Take), events);
    ExpireBegins(s, k);
    LoopOfRun(Apply(s, Take), events);
    ReachableStep(s, Take);
    ReachableRun(Apply(s, Take), events);
    ExpiryBatch(s1);
    assert Apply(s1, PopNext).Heap(k) == s1.Heap(k);
  }

  // ---------- Without interruption ----------

  /** The calls of updateSoonestTime, one after the other, are what the method of that name does. */
  lemma {:induction false} UpdateUndisturbed(s: State)
    requires s.task.Updating? && (s.task.calls != [] || s.task.victim.Some?)
    ensures var t := s.task;
            var events := seq(|t.calls|, _ => UpdateCall);
            && IsRun(s, events)
            && var s' := After(s, events);
            && s'.At(t.kind) == DoAll(s.At(t.kind), t.calls) && s'.At(Other(t.kind)) == s.At(Other(t.kind))
            && s'.task == Update(t.kind, [], t.victim)
            && s'.log == s.log && s'.delegates == s.delegates && s'.clients == s.clients
    decreases |s.task.calls|
  {
    var t := s.task;
    var events := seq(|t.calls|, _ => UpdateCall);
    if t.calls != [] {
      var s1 := Apply(s, UpdateCall);
      assert events[1..] == seq(|t.calls[1..]|, _ => UpdateCall);
      if s1.task.Updating? {
        UpdateUndisturbed(s1);
      }
    } else {
      assert events == [];
    }
  }

  /** A Push or Remove message that nothing comes between does to the container what its proc()
      does, and then, in the case of Remove, deletes the delegate. */
  lemma MessageUndisturbed(s: State)
    requires Enabled(s, Take) && !s.log[s.taken].ExpireMsg?
    ensures var m, t := s.log[s.taken], Apply(s, Take).task;
            var events := seq(if t.Updating? then |t.calls| else 0, _ => UpdateCall);
            && IsRun(s, [Take] + events)
            && var s' := After(s, [Take] + events);
            && s'.At(m.kind) == (if m.PushMsg? then WithTimer(s.At(m.kind), s.TimerOf(m.id)) else WithoutTimer(s.At(m.kind), s.TimerOf(m.id)))
            && s'.At(Other(m.kind)) == s.At(Other(m.kind))
            && s'.task == (if m.PushMsg? then Idle else Updating(m.kind, [], Some(m.id)))
            && s'.log == s.log && s'.delegates == s.delegates && s'.clients == s.clients
  {
    hide Push, Remove, UpdateSoonestTime;
    var s1 := Apply(s, Take);
    if s1.task.Updating? {
      UpdateUndisturbed(s1);
      OneStep(s, Take, s1, seq(|s1.task.calls|, _ => UpdateCall));
    } else {
      OneStep(s, Take, s1, []);
      assert seq(0, _ => UpdateCall) == [];
    }
  }

  /** The three calls of LocTimerContainer::expire: stop the kernel timer, stop polling, send. */
  lemma ExpireUndisturbed(s: State)
    requires s.poller.Handling? && s.poller.events != [] && s.poller.calls == 0
    ensures var k, events := s.poller.events[0], [PollCall, PollCall, PollCall];
            && IsRun(s, events)
            && var s' := After(s, events);
            && s'.At(k) == s.At(k).(kernel := Disarmed, polled := false) && s'.At(Other(k)) == s.At(Other(k))
            && s'.log == s.log + [ExpireMsg(k)]
            && s'.poller == if |s.poller.events| == 1 then Waiting else Handling(s.poller.events[1..], 0)
  {
    var s1 := Apply(s, PollCall);
    var s2 := Apply(s1, PollCall);
    var s3 := Apply(s2, PollCall);
    assert IsRun(s3, []) && After(s3, []) == s3;
    hide IsRun, After;
    OneStep(s2, PollCall, s3, []);
    OneStep(s1, PollCall, s2, [PollCall] + []);
    OneStep(s, PollCall, s1, [PollCall] + ([PollCall] + []));
    assert [PollCall] + ([PollCall] + ([PollCall] + [])) == [PollCall, PollCall, PollCall];
  }
}
