/**
  The main results about the timer service, for every state of every run.
 */
module TimerTheorems {
  import opened Wrappers
  import opened Deadline
  import opened LocHeapSpec
  import opened TimerProtocol
  import opened TimerLifetime
  import opened TimerCoverage
  import opened TimerAccounts

  ghost predicate Inv(s: State) {
    && Life(s) && TimesOk(s) && ThreadsOk(s)
    && CoverOk(s, Sw) && CoverOk(s, Hw)
    && (forall c: nat :: c < |s.clients| ==> CountsOk(s, c))
    && LocksOk(s) && BatchOk(s) && HeldOk(s)
  }

  lemma InvOfInit(s: State)
    requires Init(s)
    ensures Inv(s)
  {
    InitLife(s);
  }

  lemma InvOfStep(s: State, e: Event, s': State)
    requires Inv(s) && Enabled(s, e) && s' == Apply(s, e)
    ensures Inv(s')
  {
    LifeOfStep(s, e, s');
    TimesOfStep(s, e, s');
    ThreadsOfStep(s, e, s');
    CoverOfStep(s, e, Sw, s');
    CoverOfStep(s, e, Hw, s');
    forall c: nat | c < |s'.clients| ensures CountsOk(s', c) {
      assert c < |s.clients| ==> ClientOk(s, c);
      CountsOfStep(s, e, c, s');
    }
    LocksOfStep(s, e, s');
    BatchOfStep(s, e, s');
    HeldOfStep(s, e, s');
  }

  /** Every state of every run satisfies the invariant. */
  lemma {:induction false} InvOfRun(s: State, events: seq<Event>)
    requires Inv(s) && IsRun(s, events)
    ensures Inv(After(s, events))
    decreases |events|
  {
    if events != [] {
      InvOfStep(s, events[0], Apply(s, events[0]));
      InvOfRun(Apply(s, events[0]), events[1..]);
    }
  }

  /** `s` can be reached from an initial state. */
  ghost predicate Reachable(s: State) {
    exists s0: State, events: seq<Event> :: Init(s0) && IsRun(s0, events) && After(s0, events) == s
  }

  lemma ReachableInv(s: State)
    requires Reachable(s)
    ensures Inv(s)
  {
    var s0: State, events: seq<Event> :| Init(s0) && IsRun(s0, events) && After(s0, events) == s;
    InvOfInit(s0);
    InvOfRun(s0, events);
  }

  lemma ReachableRun(s: State, events: seq<Event>)
    requires Reachable(s) && IsRun(s, events)
    ensures Reachable(After(s, events))
  {
    var s0: State, before: seq<Event> :| Init(s0) && IsRun(s0, before) && After(s0, before) == s;
    RunsCompose(s0, before, events);
    assert IsRun(s0, before + events);
  }

  lemma ReachableStep(s: State, e: Event)
    requires Reachable(s) && Enabled(s, e)
    ensures Reachable(Apply(s, e))
  {
    OneStep(s, e, Apply(s, e), []);
    ReachableRun(s, [e]);
  }

  // ---------- No lost expiry ----------

  /** Whenever the message thread waits for a message and a container holds a timer, the kernel timer
      is armed for exactly the soonest deadline, or has fired, and its fd is polled; or the poll
      thread is handling an event of it; or an Expire message for it is queued. */
  lemma NoLostExpiry(s: State, k: Kind)
    requires Reachable(s) && s.task == Idle && s.Heap(k).Node?
    ensures || (s.At(k).polled && (s.At(k).kernel == Armed(s.Heap(k).data.due) || s.At(k).kernel == Fired))
            || (s.poller.Handling? && k in s.poller.events)
            || (exists j: nat :: s.taken <= j < |s.log| && s.log[j] == ExpireMsg(k))
  {
    ReachableInv(s);
    assert CoverOk(s, k);
    assert Covered(s, k);
  }

  /** The top that the kernel is armed for is a soonest one among all timers of the container. */
  lemma TopIsSoonestOfAll(s: State, k: Kind, x: Timer)
    requires Reachable(s) && x in Elems(s.Heap(k))
    ensures s.Heap(k).Node? && s.Heap(k).data.due <= x.due
  {
    ReachableInv(s);
    assert HeapOk(s, k);
    TopIsSoonest(s.Heap(k), x);
  }

  /** The branch of updateSoonestTime that would disarm the timer of an empty container is never
      taken: removing the last timer leaves the kernel timer as it is. */
  lemma NeverDisarmsEmpty(s: State)
    requires Reachable(s) && s.task.Updating? && s.task.calls != []
    ensures s.task.calls[0] != DelPoll && s.task.calls[0] != SetTime(0)
  {
    ReachableInv(s);
    var k := s.task.kind;
    assert CoverOk(s, k) && UpdateOk(s, k);
    assert HeapOk(s, k);
    TopIsThere(s.Heap(k));
    assert InHeapOk(s, k, s.Heap(k).data);
  }

  // ---------- The life of a delegate ----------

  /** Nothing that the service still looks at refers to a freed delegate: no heap, no queued
      message, no LocTimer, and not the message thread itself. */
  lemma NoDanglingReference(s: State, d: nat)
    requires Reachable(s) && d < |s.delegates| && s.delegates[d].freed
    ensures forall k, x :: x in Elems(s.Heap(k)) ==> x.id != d
    ensures forall i :: s.taken <= i < |s.log| && !s.log[i].ExpireMsg? ==> s.log[i].id != d
    ensures forall c :: 0 <= c < |s.clients| ==> s.clients[c].timer != Some(d)
    ensures !Holds(s, d) && !IsVictim(s, d)
  {
    ReachableInv(s);
    assert DelegateOk(s, d);
    forall k, x | x in Elems(s.Heap(k)) ensures x.id != d {
      assert HeapOk(s, k);
      assert InHeapOk(s, k, x);
    }
    forall i: nat | s.taken <= i < |s.log| && !s.log[i].ExpireMsg? ensures s.log[i].id != d {
      assert MsgOk(s, i);
    }
    forall c: nat | c < |s.clients| ensures s.clients[c].timer != Some(d) {
      assert ClientOk(s, c);
    }
  }

  /** A delegate gets exactly one Push message. It gets a Remove message, exactly one and after the
      Push, if and only if its timer is no longer set; and it is freed by that message alone: until
      then the message is queued or being run. */
  lemma DelegateLife(s: State, d: nat)
    requires Reachable(s) && d < |s.delegates|
    ensures exists p: nat ::
              && p < |s.log| && s.log[p] == PushMsg(s.delegates[d].kind, d)
              && forall i :: 0 <= i < |s.log| && s.log[i].PushMsg? && s.log[i].id == d ==> i == p
    ensures s.delegates[d].client.Some? ==> forall i :: 0 <= i < |s.log| && s.log[i].RemoveMsg? ==> s.log[i].id != d
    ensures s.delegates[d].client.None? ==>
              exists r: nat ::
                && r < |s.log| && s.log[r] == RemoveMsg(s.delegates[d].kind, d)
                && (forall i :: 0 <= i < |s.log| && !s.log[i].ExpireMsg? && s.log[i].id == d ==> i == r || (i < r && s.log[i].PushMsg?))
                && (s.delegates[d].freed <==> r < s.taken && !IsVictim(s, d))
  {
    ReachableInv(s);
    assert DelegateOk(s, d);
    var g := s.delegates[d];
    forall i: nat | i < |s.log| && !s.log[i].ExpireMsg? && s.log[i].id == d
      ensures if s.log[i].PushMsg? then i == g.pushAt else g.removeAt == Some(i)
    {
      assert MsgOk(s, i);
    }
    assert s.log[g.pushAt] == PushMsg(g.kind, d);
    if g.client.None? {
      var r := g.removeAt.value;
      assert r < |s.log| && s.log[r] == RemoveMsg(g.kind, d);
    }
  }

  lemma FreedStays(s: State, e: Event, d: nat, s': State)
    requires Enabled(s, e) && s' == Apply(s, e) && d < |s.delegates| && s.delegates[d].freed
    ensures d < |s'.delegates| && s'.delegates[d].freed
  {
  }

  /** A freed delegate stays freed, and is never freed again. */
  lemma FreedOnce(s: State, e: Event, d: nat)
    requires Reachable(s) && Enabled(s, e) && d < |s.delegates| && s.delegates[d].freed
    ensures d < |Apply(s, e).delegates| && Apply(s, e).delegates[d].freed
    ensures e == Delete ==> s.task.victim != Some(d)
  {
    FreedStays(s, e, d, Apply(s, e));
    NoDanglingReference(s, d);
  }

  /** mTimer of a LocTimer and mClient of a delegate point to each other or not at all. */
  lemma ClientAndDelegateAgree(s: State, c: nat, d: nat)
    requires Reachable(s) && c < |s.clients| && d < |s.delegates|
    ensures s.delegates[d].client == Some(c) <==> s.clients[c].timer == Some(d)
  {
    ReachableInv(s);
    assert ClientOk(s, c) && DelegateOk(s, d);
  }

  /** The shared lock counts the LocTimer and its live delegates, and is deleted only when there are
      none: whoever may still lock it finds it alive. */
  lemma SharedLockLife(s: State, c: nat)
    requires Reachable(s) && c < |s.clients|
    ensures s.clients[c].lockRefs == (if s.clients[c].phase == Gone then 0 else 1) + LiveOf(s.delegates, c)
    ensures s.clients[c].lockFreed <==> s.clients[c].phase == Gone && LiveOf(s.delegates, c) == 0
    ensures s.clients[c].phase != Gone || InExpire(s, c) ==> !s.clients[c].lockFreed
  {
    ReachableInv(s);
    assert LockOk(s, c);
  }

  // ---------- Conservation ----------

  /** Every successful start is accounted for: by a stop of the client that returned true, by a
      callback made or about to be made, or by the timer that is set now. */
  lemma StartsConserved(s: State, c: nat)
    requires Reachable(s) && c < |s.clients|
    ensures s.clients[c].starts == s.clients[c].stops + s.clients[c].callbacks
              + (if s.task.Expiring? && s.task.stage == Calling(c) then 1 else 0)
              + (if s.clients[c].timer.Some? then 1 else 0)
  {
    ReachableInv(s);
    assert CountsOk(s, c);
  }

  // ---------- One Expire message ----------

  /** When the loop of an Expire message ends, whatever happened on other threads since it began:
      the timers left are strictly in the future, those popped after the first were due, all popped
      ones were due if and only if the top was due at the start, and then they are the due ones. */
  lemma ExpiryBatch(s: State)
    requires Reachable(s) && Enabled(s, PopNext) && !Apply(s, PopNext).task.Expiring?
    ensures var (k, now, start, popped) := (s.task.kind, s.task.now, s.task.start, s.task.batch);
            && start.Node? && popped != [] && popped[0] == start.data
            && Elems(start) == multiset(popped) + Elems(s.Heap(k))
            && (forall x :: x in Elems(s.Heap(k)) ==> now < x.due)
            && InOrder(popped[1..], start.data.due, now)
            && (start.data.due <= now <==> forall x :: x in popped ==> x.due <= now)
            && (start.data.due <= now ==> forall x :: multiset(popped)[x] == if x.due <= now then Elems(start)[x] else 0)
  {
    BatchIsWhole(s);
    var (now, start, popped) := (s.task.now, s.task.start, s.task.batch);
    ExpiryPopsConserve(start, now);
    ExpiryPopsDue(start, now);
    if start.data.due <= now {
      forall x: Timer ensures multiset(popped)[x] == if x.due <= now then Elems(start)[x] else 0 {
        ExpiryPopsExact(start, now, x);
      }
    }
  }

  /** The pops of the loop are those of one undisturbed run over the heap it found. */
  lemma BatchIsWhole(s: State)
    requires Reachable(s) && Enabled(s, PopNext) && !Apply(s, PopNext).task.Expiring?
    ensures s.task.start.Node? && WellFormed(s.task.start, Earlier)
    ensures ExpiryPops(s.task.start, s.task.now) == (s.task.batch, s.Heap(s.task.kind))
  {
    ReachableInv(s);
    assert s.task.batch + [] == s.task.batch;
  }

  // ---------- Between the read of mClient and stop() ----------

  /** Whether a timer of client `c` is set after `events`, if `before` says so ahead of them: the
      last call of start() or stop() decides. */
  predicate SetBy(events: seq<Event>, c: nat, before: bool) {
    if events == [] then before
    else SetBy(events[1..], c, if events[0] == Stop(c) then false else before || (events[0].Start? && events[0].c == c))
  }

  /** What another thread can do while expire() holds the client pointer. */
  lemma StepWhileStopping(s: State, e: Event, c: nat, s': State)
    requires Inv(s) && s.task.Expiring? && s.task.stage == Stopping(c)
    requires Enabled(s, e) && e != StopClient && s' == Apply(s, e)
    ensures s'.task == s.task && s.clock <= s'.clock && c < |s.clients| <= |s'.clients|
    ensures |s.delegates| <= |s'.delegates|
    ensures forall d :: 0 <= d < |s.delegates| ==> s'.delegates[d].due == s.delegates[d].due
    ensures var (t, t') := (s.clients[c].timer, s'.clients[c].timer);
            if e == Stop(c) then t' == None
            else if e.Start? && e.c == c && t == None then t' == Some(|s.delegates|)
            else t' == t
  {
    assert ClientOk(s, c);
    assert BatchOk(s);
  }

  /** The timer that stop() will find: the one set before, if the client did not stop it; else none,
      or one that the client has started since. */
  lemma {:induction false} RunWhileStopping(s: State, events: seq<Event>, c: nat, n: nat)
    requires Inv(s) && s.task.Expiring? && s.task.stage == Stopping(c)
    requires IsRun(s, events) && StopClient !in events && n <= |s.delegates|
    ensures var s' := After(s, events);
            && Inv(s') && s'.task == s.task && s.clock <= s'.clock
            && c < |s.clients| <= |s'.clients| && |s.delegates| <= |s'.delegates|
            && (forall d :: 0 <= d < |s.delegates| ==> s'.delegates[d].due == s.delegates[d].due)
            && var (t, t') := (s.clients[c].timer, s'.clients[c].timer);
            && (t'.Some? <==> SetBy(events, c, t.Some?))
            && (Stop(c) !in events && t.Some? ==> t' == t)
            && (Stop(c) in events && t'.Some? ==> n <= t'.value)
            && (t'.Some? ==> t' == t || n <= t'.value)
    decreases |events|
  {
    if events != [] {
      var e, s1 := events[0], Apply(s, events[0]);
      StepWhileStopping(s, e, c, s1);
      InvOfStep(s, e, s1);
      RunWhileStopping(s1, events[1..], c, n);
    } else {
      assert TaskOk(s);
    }
  }

  /** From the moment expire() has read mClient until it calls stop(), other threads may do anything.
      That stop() hits the popped timer if and only if the client did not call stop() itself in
      between. If it did, expire() stops nothing and makes no callback, unless the client has
      called start() after its last stop(): then it hits the timer started there. The popped timer
      is due, provided the top was due when the Expire message was taken. */
  lemma StopHitsPoppedTimer(s: State, events: seq<Event>, c: nat, d: nat)
    requires Reachable(s) && Enabled(s, ReadClient) && s.task.stage == Popped(d) && s.delegates[d].client == Some(c)
    requires IsRun(Apply(s, ReadClient), events) && StopClient !in events
    ensures var s' := After(Apply(s, ReadClient), events);
            && Enabled(s', StopClient) && s'.task == s.task.(stage := Stopping(c))
            && (s'.clients[c].timer == Some(d) <==> Stop(c) !in events)
            && (s'.clients[c].timer == None <==> !SetBy(events, c, true))
            && Apply(s', StopClient).task.stage == (if SetBy(events, c, true) then Calling(c) else Looping)
            && (Stop(c) in events && SetBy(events, c, true) ==> |s.delegates| <= s'.clients[c].timer.value)
            && s.task.start.Node? && d < |s'.delegates|
            && (s.task.start.data.due <= s.task.now ==> s'.delegates[d].due <= s'.clock)
  {
    hide Inv, Apply, SetBy;
    ReachableInv(s);
    var s1 := Apply(s, ReadClient);
    InvOfStep(s, ReadClient, s1);
    ReadFindsTimer(s, c, d);
    PoppedIsDue(s);
    RunWhileStopping(s1, events, c, |s.delegates|);
    StopIfSet(After(s1, events), c);
  }

  lemma ReadFindsTimer(s: State, c: nat, d: nat)
    requires Inv(s) && Enabled(s, ReadClient) && s.task.stage == Popped(d) && s.delegates[d].client == Some(c)
    ensures var s1 := Apply(s, ReadClient);
            && s1.task == s.task.(stage := Stopping(c)) && s1.clock == s.clock
            && s1.clients == s.clients && s1.delegates == s.delegates
    ensures c < |s.clients| && s.clients[c].timer == Some(d)
    ensures s.task.batch != [] && s.task.batch[|s.task.batch| - 1].due == s.delegates[d].due
  {
    assert DelegateOk(s, d) && HeldOk(s);
  }

  lemma StopIfSet(s: State, c: nat)
    requires Inv(s) && s.task.Expiring? && s.task.stage == Stopping(c)
    ensures c < |s.clients| && Enabled(s, StopClient)
    ensures Apply(s, StopClient).task.stage == if s.clients[c].timer.Some? then Calling(c) else Looping
  {
    assert TaskOk(s) && ClientOk(s, c);
  }

  /** The timer in the hands of the message thread was due when the Expire message was taken, if
      the top was due then. */
  lemma PoppedIsDue(s: State)
    requires Inv(s) && s.task.Expiring?
    ensures s.task.batch != [] && s.task.start.Node?
    ensures s.task.start.data.due <= s.task.now ==> s.task.batch[|s.task.batch| - 1].due <= s.task.now <= s.clock
  {
    var x := s.task.batch[|s.task.batch| - 1];
    ExpiryPopsDue(s.task.start, s.task.now);
    assert x in s.task.batch + DuePops(s.Heap(s.task.kind), s.task.now).0;
    assert x in ExpiryPops(s.task.start, s.task.now).0;
  }

  // ---------- The ranking ----------

  /** On any two timers the service ever compares, the source's truncated rank of the normalised
      times is the comparison that the heap is given. */
  lemma RankIsEarlier(s: State, a: Timer, b: Timer)
    requires Reachable(s) && a.id < |s.delegates| && b.id < |s.delegates|
    requires a == s.TimerOf(a.id)
    requires || b == s.TimerOf(b.id) || b == Timer(0, s.clock)
             || (s.task.Expiring? && b == Timer(0, s.task.now))
    ensures Ranks(OfNs(a.due), OfNs(b.due)) > 0 <==> Earlier(a, b)
    ensures Ranks(OfNs(b.due), OfNs(a.due)) > 0 <==> Earlier(b, a)
  {
    ReachableInv(s);
    RankOfDeadlines(a.due, b.due);
    RankOfDeadlines(b.due, a.due);
  }
}
