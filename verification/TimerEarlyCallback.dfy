/**
  Two runs in which a client is called back long before its deadline. In the first the poll thread
  is handling an expiration of a timer that is stopped meanwhile, and the Expire message pops the
  next timer without looking at its deadline (gps/utils/LocTimer.cpp:367). In the second the client
  restarts its timer between the read of mClient and the call of stop() in LocTimerDelegate::expire
  (gps/utils/LocTimer.cpp:524-526). TimerTheorems.ExpiryBatch says when the first cannot happen.
 */
module TimerEarlyCallback {
  import opened Wrappers
  import opened LocHeapSpec
  import opened TimerProtocol

  const BOOT := 1000000000
  const LATER := 61000000000  // one minute after BOOT

  /** Client 0 started its timer for the second time, with a deadline still to come, and was called
      back for that timer: it stopped only the first one itself. */
  ghost predicate CalledBackEarly(s: State) {
    && |s.clients| == 1 && |s.delegates| == 2
    && s.clients[0].starts == 2 && s.clients[0].callbacks == 1 && s.clients[0].stops == 1
    && s.clients[0].timer == None
    && s.delegates[1].owner == 0 && s.delegates[1].client == None && s.clock < s.delegates[1].due
  }

  const START := State(BOOT, [], [], [], 0, EMPTY, EMPTY, Waiting, Idle)

  function Timer0(): Timer { Timer(0, BOOT) }
  function Timer1(): Timer { Timer(1, LATER) }
  function Single(t: Timer): Tree<Timer> { Node(1, t, Leaf, Leaf) }

  function Running(stops: nat, starts: nat, timer: Option<nat>, refs: int): seq<Client> {
    [Client(timer, Open, refs, false, starts, stops, 0)]
  }

  function First(client: Option<nat>, removeAt: Option<nat>): Delegate {
    Delegate(0, Sw, BOOT, client, false, 0, removeAt)
  }

  /** The timer of client 0 is in the heap, has expired, and the poll thread has seen it. */
  const WOKEN := State(BOOT, Running(0, 1, Some(0), 2), [First(Some(0), None)], [PushMsg(Sw, 0)], 1,
                       Container(Single(Timer0()), Fired, true), EMPTY, Handling([Sw], 0), Idle)

  /** The timer of client 0 has been pushed, and the kernel timer armed for it. */
  const ARMED := WOKEN.(sw := Container(Single(Timer0()), Armed(BOOT), true), poller := Waiting)

  lemma Arming() returns (events: seq<Event>)
    ensures IsRun(START, events) && After(START, events) == ARMED
  {
    var s1 := Apply(START, NewClient);
    var s2 := Apply(s1, Start(0, 0, Sw));
    var s3 := Apply(s2, Take);
    assert s3.sw.heap == Single(Timer0());
    var s4 := Apply(s3, UpdateCall);
    var s5 := Apply(s4, UpdateCall);
    assert s5 == ARMED;
    events := [];
    OneStep(s4, UpdateCall, s5, events); events := [UpdateCall] + events;
    OneStep(s3, UpdateCall, s4, events); events := [UpdateCall] + events;
    OneStep(s2, Take, s3, events); events := [Take] + events;
    OneStep(s1, Start(0, 0, Sw), s2, events); events := [Start(0, 0, Sw)] + events;
    OneStep(START, NewClient, s1, events); events := [NewClient] + events;
  }

  lemma Firing() returns (events: seq<Event>)
    ensures IsRun(ARMED, events) && After(ARMED, events) == WOKEN
  {
    var s1 := Apply(ARMED, KernelFire(Sw));
    var s2 := Apply(s1, PollWake([Sw]));
    assert s2 == WOKEN;
    events := [];
    OneStep(s1, PollWake([Sw]), s2, events); events := [PollWake([Sw])] + events;
    OneStep(ARMED, KernelFire(Sw), s1, events); events := [KernelFire(Sw)] + events;
  }

  lemma Waking() returns (events: seq<Event>)
    ensures IsRun(START, events) && After(START, events) == WOKEN
  {
    var a := Arming();
    var b := Firing();
    RunsCompose(START, a, b);
    events := a + b;
  }

  // ---------- A stale event ----------

  function Second(client: Option<nat>, pushAt: nat, removeAt: Option<nat>): Delegate {
    Delegate(0, Sw, LATER, client, false, pushAt, removeAt)
  }

  /** The client has stopped and restarted its timer. */
  const STOPPED := State(BOOT, Running(1, 2, Some(1), 3), [First(None, Some(1)), Second(Some(0), 2, None)],
                         [PushMsg(Sw, 0), RemoveMsg(Sw, 0), PushMsg(Sw, 1)], 1,
                         Container(Single(Timer0()), Fired, true), EMPTY, Handling([Sw], 0), Idle)

  /** The first delegate is out of the heap and deleted. */
  const RESTARTING := STOPPED.(clients := Running(1, 2, Some(1), 2), taken := 2, sw := Container(Leaf, Fired, true),
                               delegates := [First(None, Some(1)).(freed := true), Second(Some(0), 2, None)])

  lemma StoppingFirst() returns (events: seq<Event>)
    ensures IsRun(WOKEN, events) && After(WOKEN, events) == STOPPED
  {
    var s1 := Apply(WOKEN, Stop(0));
    var s2 := Apply(s1, Start(0, 60000, Sw));
    assert s2 == STOPPED;
    events := [];
    OneStep(s1, Start(0, 60000, Sw), s2, events); events := [Start(0, 60000, Sw)] + events;
    OneStep(WOKEN, Stop(0), s1, events); events := [Stop(0)] + events;
  }

  lemma DeletingFirst() returns (events: seq<Event>)
    ensures IsRun(STOPPED, events) && After(STOPPED, events) == RESTARTING
  {
    var s1 := Apply(STOPPED, Take);
    assert s1.sw.heap == Leaf;
    var s2 := Apply(s1, Delete);
    assert s2 == RESTARTING;
    events := [];
    OneStep(s1, Delete, s2, events); events := [Delete] + events;
    OneStep(STOPPED, Take, s1, events); events := [Take] + events;
  }

  /** The new timer is in the heap and armed. */
  const RESTARTED := RESTARTING.(taken := 3, sw := Container(Single(Timer1()), Armed(LATER), true))

  lemma Restarting() returns (events: seq<Event>)
    ensures IsRun(RESTARTING, events) && After(RESTARTING, events) == RESTARTED
  {
    var s1 := Apply(RESTARTING, Take);
    assert s1.sw.heap == Single(Timer1());
    var s2 := Apply(s1, UpdateCall);
    var s3 := Apply(s2, UpdateCall);
    assert s3 == RESTARTED;
    events := [];
    OneStep(s2, UpdateCall, s3, events); events := [UpdateCall] + events;
    OneStep(s1, UpdateCall, s2, events); events := [UpdateCall] + events;
    OneStep(RESTARTING, Take, s1, events); events := [Take] + events;
  }

  /** The poll thread has sent the Expire message for the expiration of the first timer. */
  const EXPIRE_SENT := RESTARTED.(log := RESTARTED.log + [ExpireMsg(Sw)], poller := Waiting,
                                  sw := Container(Single(Timer1()), Disarmed, false))

  lemma Sending() returns (events: seq<Event>)
    ensures IsRun(RESTARTED, events) && After(RESTARTED, events) == EXPIRE_SENT
  {
    var s1 := Apply(RESTARTED, PollCall);
    var s2 := Apply(s1, PollCall);
    var s3 := Apply(s2, PollCall);
    assert s3 == EXPIRE_SENT;
    events := [];
    OneStep(s2, PollCall, s3, events); events := [PollCall] + events;
    OneStep(s1, PollCall, s2, events); events := [PollCall] + events;
    OneStep(RESTARTED, PollCall, s1, events); events := [PollCall] + events;
  }

  lemma ExpiringSecond() returns (events: seq<Event>)
    ensures IsRun(EXPIRE_SENT, events) && CalledBackEarly(After(EXPIRE_SENT, events))
  {
    var s1 := Apply(EXPIRE_SENT, Take);
    assert s1.task == Expiring(Sw, BOOT, Single(Timer1()), [Timer1()], Popped(1));
    var s2 := Apply(s1, ReadClient);
    var s3 := Apply(s2, StopClient);
    var s4 := Apply(s3, Callback);
    events := [];
    OneStep(s3, Callback, s4, events); events := [Callback] + events;
    OneStep(s2, StopClient, s3, events); events := [StopClient] + events;
    OneStep(s1, ReadClient, s2, events); events := [ReadClient] + events;
    OneStep(EXPIRE_SENT, Take, s1, events); events := [Take] + events;
  }

  /** A run from an initial state in which a timer of one minute calls back at once: the event that
      the poll thread handles is that of an earlier timer, and the pop does not look. */
  lemma StaleEventCallsBackEarly() returns (s0: State, events: seq<Event>)
    ensures Init(s0) && IsRun(s0, events) && CalledBackEarly(After(s0, events))
  {
    s0 := START;
    var a := Waking();
    var b := StoppingFirst();
    var c := DeletingFirst();
    var d := Restarting();
    var e := Sending();
    var f := ExpiringSecond();
    RunsCompose(RESTARTED, e, f);
    RunsCompose(RESTARTING, d, e + f);
    RunsCompose(STOPPED, c, d + (e + f));
    RunsCompose(WOKEN, b, c + (d + (e + f)));
    RunsCompose(START, a, b + (c + (d + (e + f))));
    events := a + (b + (c + (d + (e + f))));
  }

  // ---------- A restart inside expire() ----------

  /** The Expire message for the first timer is sent. */
  const EXPIRED := WOKEN.(log := [PushMsg(Sw, 0), ExpireMsg(Sw)], poller := Waiting,
                          sw := Container(Single(Timer0()), Disarmed, false))

  /** The timer is due and popped; the message thread has read mClient and not yet called stop(). */
  const ABOUT_TO_STOP := EXPIRED.(taken := 2, sw := EMPTY, task := Expiring(Sw, BOOT, Single(Timer0()), [Timer0()], Stopping(0)))

  lemma SendingFirst() returns (events: seq<Event>)
    ensures IsRun(WOKEN, events) && After(WOKEN, events) == EXPIRED
  {
    var s1 := Apply(WOKEN, PollCall);
    var s2 := Apply(s1, PollCall);
    var s3 := Apply(s2, PollCall);
    assert s3 == EXPIRED;
    events := [];
    OneStep(s2, PollCall, s3, events); events := [PollCall] + events;
    OneStep(s1, PollCall, s2, events); events := [PollCall] + events;
    OneStep(WOKEN, PollCall, s1, events); events := [PollCall] + events;
  }

  lemma Popping() returns (events: seq<Event>)
    ensures IsRun(EXPIRED, events) && After(EXPIRED, events) == ABOUT_TO_STOP
  {
    var s1 := Apply(EXPIRED, Take);
    assert s1.task == Expiring(Sw, BOOT, Single(Timer0()), [Timer0()], Popped(0));
    var s2 := Apply(s1, ReadClient);
    assert s2 == ABOUT_TO_STOP;
    events := [];
    OneStep(s1, ReadClient, s2, events); events := [ReadClient] + events;
    OneStep(EXPIRED, Take, s1, events); events := [Take] + events;
  }

  lemma StoppingTheWrongTimer() returns (events: seq<Event>)
    ensures IsRun(ABOUT_TO_STOP, events) && CalledBackEarly(After(ABOUT_TO_STOP, events))
  {
    hide TakeMsg, PopIfDue, PollerCalls, Push, Pop, Remove, UpdateSoonestTime;
    var s1 := Apply(ABOUT_TO_STOP, Stop(0));
    var s2 := Apply(s1, Start(0, 60000, Sw));
    assert s2.delegates == [First(None, Some(2)), Second(Some(0), 3, None)];
    var s3 := Apply(s2, StopClient);
    var s4 := Apply(s3, Callback);
    assert CalledBackEarly(s4) && IsRun(s4, []) && After(s4, []) == s4;
    hide IsRun, After, CalledBackEarly;
    events := [];
    OneStep(s3, Callback, s4, events); events := [Callback] + events;
    OneStep(s2, StopClient, s3, events); events := [StopClient] + events;
    OneStep(s1, Start(0, 60000, Sw), s2, events); events := [Start(0, 60000, Sw)] + events;
    OneStep(ABOUT_TO_STOP, Stop(0), s1, events); events := [Stop(0)] + events;
  }

  /** Even though only a due timer was popped, its client is called back for the timer of one minute
      that it started in the meantime. */
  lemma RestartCallsBackEarly() returns (s0: State, events: seq<Event>)
    ensures Init(s0) && IsRun(s0, events) && CalledBackEarly(After(s0, events))
  {
    s0 := START;
    var a := Waking();
    var b := SendingFirst();
    var c := Popping();
    var d := StoppingTheWrongTimer();
    RunsCompose(EXPIRED, c, d);
    RunsCompose(WOKEN, b, c + d);
    RunsCompose(START, a, b + (c + d));
    events := a + (b + (c + d));
  }
}
