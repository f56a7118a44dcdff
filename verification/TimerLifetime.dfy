/**
  The life of a delegate: in every run each one is pushed once, removed at most once, found by the
  heap search when it has to be, freed by its Remove message only, and never referred to after.
 */
module TimerLifetime {
  import opened Wrappers
  import opened Deadline
  import opened LocHeapSpec
  import opened TimerProtocol

  /** The message thread is past the heap search for `d` but has not deleted it yet. */
  ghost predicate IsVictim(s: State, d: nat) {
    s.task.Updating? && s.task.victim == Some(d)
  }

  /** The Remove message of `d` has been taken off the queue. */
  ghost predicate RemoveTaken(s: State, d: nat)
    requires d < |s.delegates|
  {
    s.delegates[d].removeAt.Some? && s.delegates[d].removeAt.value < s.taken
  }

  /** The one Push message is in the log; a Remove message is there if and only if mClient is NULL,
      after the Push; the delegate is freed exactly once that Remove has been run. */
  ghost predicate DelegateOk(s: State, d: nat)
    requires d < |s.delegates|
  {
    var g := s.delegates[d];
    && g.owner < |s.clients|
    && g.pushAt < |s.log| && s.log[g.pushAt] == PushMsg(g.kind, d)
    && (g.removeAt.Some? ==> g.pushAt < g.removeAt.value < |s.log| && s.log[g.removeAt.value] == RemoveMsg(g.kind, d))
    && g.client == (if g.removeAt.None? then Some(g.owner) else None)
    && (g.freed <==> RemoveTaken(s, d) && !IsVictim(s, d))
    && (g.client.Some? ==> s.clients[g.owner].timer == Some(d))
  }

  ghost predicate MsgOk(s: State, i: nat)
    requires i < |s.log|
  {
    var m := s.log[i];
    m.ExpireMsg? ||
    (&& m.id < |s.delegates| && s.delegates[m.id].kind == m.kind
     && (m.PushMsg? ==> s.delegates[m.id].pushAt == i)
     && (m.RemoveMsg? ==> s.delegates[m.id].removeAt == Some(i)))
  }

  /** mTimer of the client and mClient of the delegate point to each other, or are both NULL. */
  ghost predicate ClientOk(s: State, c: nat)
    requires c < |s.clients|
  {
    var t := s.clients[c].timer;
    && (t.Some? ==> t.value < |s.delegates| && s.delegates[t.value].client == Some(c))
    && (s.clients[c].phase != Open ==> t.None?)
  }

  /** A heap holds delegates whose Push was taken and whose Remove was not, each at most once. */
  ghost predicate InHeapOk(s: State, k: Kind, x: Timer) {
    && x.id < |s.delegates| && x == s.TimerOf(x.id) && s.delegates[x.id].kind == k
    && s.delegates[x.id].pushAt < s.taken && !RemoveTaken(s, x.id)
    && Elems(s.Heap(k))[x] == 1
    && !Holds(s, x.id)
  }

  ghost predicate HeapOk(s: State, k: Kind) {
    && WellFormed(s.Heap(k), Earlier)
    && forall x :: x in Elems(s.Heap(k)) ==> InHeapOk(s, k, x)
  }

  /** The message thread has popped `d` and not yet called its expire(). */
  ghost predicate Holds(s: State, d: nat) {
    s.task.Expiring? && s.task.stage == Popped(d)
  }

  ghost predicate TaskOk(s: State) {
    && (s.task.Updating? && s.task.victim.Some? ==>
          s.task.victim.value < |s.delegates| && RemoveTaken(s, s.task.victim.value))
    && (s.task.Expiring? && s.task.stage.Popped? ==>
          var d := s.task.stage.id;
          d < |s.delegates| && s.delegates[d].pushAt < s.taken && !RemoveTaken(s, d))
    && (s.task.Expiring? && s.task.stage.Stopping? ==> IsClient(s, s.task.stage.client))
    && (s.task.Expiring? && s.task.stage.Calling? ==> IsClient(s, s.task.stage.client))
  }

  /** A timer that is set is on its way to the heap, in it, or in the hands of the message thread. */
  ghost predicate Tracked(s: State, d: nat)
    requires d < |s.delegates|
  {
    s.delegates[d].client.Some? ==>
      || s.delegates[d].pushAt >= s.taken
      || s.TimerOf(d) in Elems(s.Heap(s.delegates[d].kind))
      || Holds(s, d)
      || (s.task.Expiring? && s.task.stage == Stopping(s.delegates[d].owner))
  }

  ghost predicate Life(s: State) {
    && s.taken <= |s.log|
    && (forall d: nat :: d < |s.delegates| ==> DelegateOk(s, d))
    && (forall i: nat :: i < |s.log| ==> MsgOk(s, i))
    && (forall c: nat :: c < |s.clients| ==> ClientOk(s, c))
    && HeapOk(s, Sw) && HeapOk(s, Hw)
    && TaskOk(s)
    && (forall d: nat :: d < |s.delegates| ==> Tracked(s, d))
  }

  lemma InitLife(s: State)
    requires Init(s)
    ensures Life(s)
  {
  }

  /** `s'` has the delegates of `s` as they were, but for their mClient, and perhaps more. */
  ghost predicate KeepsDelegates(s: State, s': State) {
    && |s.delegates| <= |s'.delegates|
    && forall d: nat {:trigger s.delegates[d]} {:trigger s'.delegates[d]} :: d < |s.delegates| ==>
         && s'.delegates[d].due == s.delegates[d].due && s'.delegates[d].kind == s.delegates[d].kind
         && s'.delegates[d].pushAt == s.delegates[d].pushAt
         && (s'.delegates[d].removeAt == s.delegates[d].removeAt
             || (s.delegates[d].removeAt.None? && s'.delegates[d].removeAt == Some(|s.log|)))
  }

  lemma HeapsKept(s: State, s': State)
    requires HeapOk(s, Sw) && HeapOk(s, Hw) && KeepsDelegates(s, s')
    requires s'.sw.heap == s.sw.heap && s'.hw.heap == s.hw.heap
    requires s.taken == s'.taken <= |s.log|
    requires forall d: nat :: Holds(s', d) ==> Holds(s, d)
    ensures HeapOk(s', Sw) && HeapOk(s', Hw)
  {
    hide WellFormed, Elems;
    forall x | x in Elems(s'.sw.heap) ensures InHeapOk(s', Sw, x) {
      assert InHeapOk(s, Sw, x);
    }
    forall x | x in Elems(s'.hw.heap) ensures InHeapOk(s', Hw, x) {
      assert InHeapOk(s, Hw, x);
    }
  }

  /** What a step that leaves log, delegates and heaps alone has to keep. */
  ghost predicate QuietStep(s: State, s': State) {
    && s'.log == s.log && s'.taken == s.taken && s'.delegates == s.delegates
    && s'.sw.heap == s.sw.heap && s'.hw.heap == s.hw.heap
    && |s'.clients| >= |s.clients|
    && forall c: nat {:trigger s.clients[c]} {:trigger s'.clients[c]} :: c < |s.clients| ==> s'.clients[c].timer == s.clients[c].timer
  }

  lemma LifeOfTaskStep(s: State, s': State)
    requires Life(s) && QuietStep(s, s')
    requires forall c: nat :: c < |s'.clients| ==> ClientOk(s', c)
    requires forall d: nat :: IsVictim(s', d) <==> IsVictim(s, d)
    requires forall d: nat :: Holds(s', d) ==> Holds(s, d)
    requires forall d: nat :: d < |s'.delegates| ==> Tracked(s', d)
    requires TaskOk(s')
    ensures Life(s')
  {
    hide WellFormed, Elems;
    forall d: nat | d < |s'.delegates| ensures DelegateOk(s', d) {
      assert DelegateOk(s, d);
    }
    forall i: nat | i < |s'.log| ensures MsgOk(s', i) {
      assert MsgOk(s, i);
    }
    HeapsKept(s, s');
  }

  lemma LifeOfQuietStep(s: State, s': State)
    requires Life(s) && QuietStep(s, s') && s'.task == s.task
    requires forall c: nat :: c < |s'.clients| ==> ClientOk(s', c)
    requires TaskOk(s')
    ensures Life(s')
  {
    hide WellFormed, Elems;
    forall d: nat | d < |s'.delegates| ensures Tracked(s', d) {
      assert Tracked(s, d);
    }
    LifeOfTaskStep(s, s');
  }

  lemma LifeOfStart(s: State, c: nat, ms: nat, kind: Kind)
    requires Life(s) && IsClient(s, c) && ms < UINT32_LIMIT
    ensures Life(StartTimer(s, c, ms, kind))
  {
    hide WellFormed, Elems;
    var s' := StartTimer(s, c, ms, kind);
    if s' != s {
      forall d: nat | d < |s'.delegates| ensures DelegateOk(s', d) && Tracked(s', d) {
        if d < |s.delegates| {
          assert DelegateOk(s, d) && Tracked(s, d);
        }
      }
      forall i: nat | i < |s'.log| ensures MsgOk(s', i) {
        if i < |s.log| { assert MsgOk(s, i); }
      }
      forall k: nat | k < |s'.clients| ensures ClientOk(s', k) {
        assert ClientOk(s, k);
      }
      HeapsKept(s, s');
    }
  }

  /** LocTimer::stop keeps the invariant whoever calls it: the client, its destructor, or expire(). */
  lemma LifeOfStop(s: State, c: nat)
    requires Life(s) && HasTimer(s, c)
    ensures Life(StopLocked(s, c))
  {
    hide WellFormed, Elems;
    var s' := StopLocked(s, c);
    var t := s.clients[c].timer.value;
    assert ClientOk(s, c) && DelegateOk(s, t);
    forall d: nat | d < |s'.delegates| ensures DelegateOk(s', d) && Tracked(s', d) {
      assert DelegateOk(s, d) && Tracked(s, d);
    }
    forall i: nat | i < |s'.log| ensures MsgOk(s', i) {
      if i < |s.log| { assert MsgOk(s, i); }
    }
    forall k: nat | k < |s'.clients| ensures ClientOk(s', k) {
      assert ClientOk(s, k);
    }
    HeapsKept(s, s');
  }

  // ---------- Steps of the message thread ----------

  /** `s'` is `s` after the next message was taken off the queue and run up to its first kernel
      call: heaps and task may differ, and the victim is the delegate of a Remove message. */
  ghost predicate Takes(s: State, s': State) {
    && s.task == Idle && s.taken < |s.log|
    && s'.taken == s.taken + 1
    && s'.clients == s.clients && s'.delegates == s.delegates && s'.log == s.log
    && forall d: nat :: IsVictim(s', d) <==> s.log[s.taken].RemoveMsg? && s.log[s.taken].id == d
  }

  lemma TakingKeepsRecords(s: State, s': State)
    requires Life(s) && Takes(s, s')
    ensures forall d: nat :: d < |s'.delegates| ==> DelegateOk(s', d)
    ensures forall i: nat :: i < |s'.log| ==> MsgOk(s', i)
    ensures forall c: nat :: c < |s'.clients| ==> ClientOk(s', c)
  {
    hide WellFormed, Elems;
    assert MsgOk(s, s.taken);
    forall d: nat | d < |s'.delegates| ensures DelegateOk(s', d) {
      assert DelegateOk(s, d);
    }
    forall i: nat | i < |s'.log| ensures MsgOk(s', i) {
      assert MsgOk(s, i);
    }
    forall c: nat | c < |s'.clients| ensures ClientOk(s', c) {
      assert ClientOk(s, c);
    }
  }

  /** A timer that stays in its heap while a message is taken stays there rightfully. */
  lemma TimerKept(s: State, s': State, k: Kind, y: Timer)
    requires Life(s) && Takes(s, s') && y in Elems(s.Heap(k))
    requires s.log[s.taken].RemoveMsg? ==> s.log[s.taken].id != y.id
    requires Elems(s'.Heap(k))[y] == Elems(s.Heap(k))[y] && !Holds(s', y.id)
    ensures InHeapOk(s', k, y)
  {
    hide WellFormed, Elems;
    assert HeapOk(s, k);
    assert InHeapOk(s, k, y);
    assert DelegateOk(s, y.id);
  }

  /** A heap that no message for it was taken from stays in order. */
  lemma OtherHeapKept(s: State, s': State, k: Kind)
    requires Life(s) && Takes(s, s') && s'.Heap(k) == s.Heap(k)
    requires s.log[s.taken].RemoveMsg? ==> s.log[s.taken].kind != k
    requires forall d: nat :: d < |s.delegates| && s.delegates[d].kind == k ==> !Holds(s', d)
    ensures HeapOk(s', k)
  {
    hide WellFormed, Elems;
    assert MsgOk(s, s.taken) && HeapOk(s, k);
    forall y | y in Elems(s'.Heap(k)) ensures InHeapOk(s', k, y) {
      assert InHeapOk(s, k, y);
      TimerKept(s, s', k, y);
    }
  }

  function Other(k: Kind): Kind {
    if k == Sw then Hw else Sw
  }

  /** Timers stay tracked when the heap `k` loses at most `x`, which is stopped or now held. */
  lemma TrackedAfterTaking(s: State, s': State, k: Kind, x: Timer)
    requires Life(s) && Takes(s, s') && s'.Heap(Other(k)) == s.Heap(Other(k))
    requires x.id < |s.delegates| && x == s.TimerOf(x.id)
    requires forall y :: y in Elems(s.Heap(k)) && y != x ==> y in Elems(s'.Heap(k))
    requires Tracked(s', x.id)
    requires s.log[s.taken].PushMsg? ==> s.log[s.taken].id == x.id
    ensures forall d: nat :: d < |s'.delegates| ==> Tracked(s', d)
  {
    hide WellFormed, Elems;
    forall d: nat | d < |s'.delegates| ensures Tracked(s', d) {
      assert Tracked(s, d) && DelegateOk(s, d);
      assert d != x.id ==> s.TimerOf(d) != x;
      assert s.delegates[d].kind == k || s.delegates[d].kind == Other(k);
    }
  }

  /** A Push message adds its timer to the heap; it was not there before. */
  lemma LifeWithTimer(s: State, s': State, k: Kind, d: nat)
    requires Life(s) && Takes(s, s') && s.log[s.taken] == PushMsg(k, d)
    requires s'.Heap(Other(k)) == s.Heap(Other(k)) && TaskOk(s') && !s'.task.Expiring?
    requires d < |s.delegates| && WellFormed(s'.Heap(k), Earlier)
    requires Elems(s'.Heap(k)) == Elems(s.Heap(k)) + multiset{s.TimerOf(d)}
    ensures Life(s')
  {
    hide WellFormed, Elems;
    var x := s.TimerOf(d);
    assert MsgOk(s, s.taken) && DelegateOk(s, d) && HeapOk(s, k);
    assert x in Elems(s.Heap(k)) ==> InHeapOk(s, k, x);
    forall y | y in Elems(s'.Heap(k)) ensures InHeapOk(s', k, y) {
      if y != x {
        TimerKept(s, s', k, y);
      }
    }
    TakingKeepsRecords(s, s');
    OtherHeapKept(s, s', Other(k));
    TrackedAfterTaking(s, s', k, x);
  }

  /** A Remove message, and the first pop of an Expire message, take `x` out of the heap if it is
      there; then no heap refers to it any more. */
  lemma LifeWithoutTimer(s: State, s': State, k: Kind, x: Timer)
    requires Life(s) && Takes(s, s') && s.log[s.taken].kind == k && TaskOk(s')
    requires s.log[s.taken].RemoveMsg? || s.log[s.taken].ExpireMsg?
    requires s.log[s.taken].RemoveMsg? ==> s.log[s.taken].id == x.id
    requires s'.Heap(Other(k)) == s.Heap(Other(k))
    requires x.id < |s.delegates| && x == s.TimerOf(x.id) && s.delegates[x.id].kind == k && Tracked(s', x.id)
    requires forall d: nat :: Holds(s', d) ==> d == x.id
    requires WellFormed(s'.Heap(k), Earlier)
    requires if x in Elems(s.Heap(k)) then Elems(s.Heap(k)) == Elems(s'.Heap(k)) + multiset{x}
             else s'.Heap(k) == s.Heap(k)
    ensures Life(s')
  {
    hide WellFormed, Elems;
    assert MsgOk(s, s.taken) && HeapOk(s, k);
    assert x in Elems(s.Heap(k)) ==> InHeapOk(s, k, x);
    forall y | y in Elems(s'.Heap(k)) ensures InHeapOk(s', k, y) {
      assert y in Elems(s.Heap(k)) && y != x;
      assert InHeapOk(s, k, y);
      TimerKept(s, s', k, y);
    }
    TakingKeepsRecords(s, s');
    OtherHeapKept(s, s', Other(k));
    TrackedAfterTaking(s, s', k, x);
  }

  lemma PushedHeap(s: State, k: Kind, d: nat)
    requires s.taken < |s.log| && s.log[s.taken] == PushMsg(k, d) && d < |s.delegates|
    requires WellFormed(s.Heap(k), Earlier)
    ensures WellFormed(TakeMsg(s).Heap(k), Earlier)
    ensures Elems(TakeMsg(s).Heap(k)) == Elems(s.Heap(k)) + multiset{s.TimerOf(d)}
  {
    PushFacts(s.Heap(k), s.TimerOf(d));
  }

  lemma RemovedHeap(s: State, k: Kind, d: nat)
    requires s.taken < |s.log| && s.log[s.taken] == RemoveMsg(k, d) && d < |s.delegates|
    requires WellFormed(s.Heap(k), Earlier)
    ensures WellFormed(TakeMsg(s).Heap(k), Earlier)
    ensures if s.TimerOf(d) in Elems(s.Heap(k))
            then Elems(s.Heap(k)) == Elems(TakeMsg(s).Heap(k)) + multiset{s.TimerOf(d)}
            else TakeMsg(s).Heap(k) == s.Heap(k)
  {
    RemoveFacts(s.Heap(k), s.TimerOf(d));
  }

  lemma PoppedHeap(s: State, k: Kind)
    requires s.taken < |s.log| && s.log[s.taken] == ExpireMsg(k)
    requires WellFormed(s.Heap(k), Earlier)
    ensures WellFormed(TakeMsg(s).Heap(k), Earlier)
    ensures s.Heap(k).Leaf? ==> TakeMsg(s).Heap(k) == s.Heap(k)
    ensures s.Heap(k).Node? ==>
              && s.Heap(k).data in Elems(s.Heap(k))
              && Elems(s.Heap(k)) == Elems(TakeMsg(s).Heap(k)) + multiset{s.Heap(k).data}
  {
    if s.Heap(k).Node? { PopFacts(s.Heap(k)); }
  }

  /** No pending message refers to a delegate that does not exist: the step Take is never barred. */
  lemma MsgKnown(s: State)
    requires Life(s) && s.taken < |s.log|
    ensures KnowsTimer(s, s.log[s.taken])
  {
    assert MsgOk(s, s.taken);
  }

  lemma LifeOfPush(s: State, k: Kind, d: nat, s': State)
    requires Life(s) && s.task == Idle && s.taken < |s.log| && s.log[s.taken] == PushMsg(k, d)
    requires KnowsTimer(s, s.log[s.taken]) && s' == TakeMsg(s)
    ensures Life(s')
  {
    hide WellFormed, Elems;
    assert HeapOk(s, k);
    PushedHeap(s, k, d);
    LifeWithTimer(s, s', k, d);
  }

  /** The search of Remove finds the delegate if and only if it is still in the heap, so that from
      here on no heap refers to it. */
  lemma LifeOfRemove(s: State, k: Kind, d: nat, s': State)
    requires Life(s) && s.task == Idle && s.taken < |s.log| && s.log[s.taken] == RemoveMsg(k, d)
    requires KnowsTimer(s, s.log[s.taken]) && s' == TakeMsg(s)
    ensures Life(s')
  {
    hide WellFormed, Elems;
    assert MsgOk(s, s.taken) && HeapOk(s, k);
    assert DelegateOk(s, d);
    RemovedHeap(s, k, d);
    LifeWithoutTimer(s, s', k, s.TimerOf(d));
  }

  lemma LifeOfExpire(s: State, k: Kind, s': State)
    requires Life(s) && s.task == Idle && s.taken < |s.log| && s.log[s.taken] == ExpireMsg(k)
    requires s.Heap(k).Node? && s' == TakeMsg(s)
    ensures Life(s')
  {
    hide WellFormed, Elems;
    assert HeapOk(s, k);
    PoppedHeap(s, k);
    var x := s.Heap(k).data;
    assert InHeapOk(s, k, x);
    assert DelegateOk(s, x.id);
    LifeWithoutTimer(s, s', k, x);
  }

  /** An Expire message for an empty heap changes nothing but the count of taken messages. */
  lemma LifeOfIdleExpire(s: State, k: Kind, s': State)
    requires Life(s) && s.task == Idle && s.taken < |s.log| && s.log[s.taken] == ExpireMsg(k)
    requires s.Heap(k).Leaf? && s' == TakeMsg(s)
    ensures Life(s')
  {
    hide WellFormed, Elems;
    TakingKeepsRecords(s, s');
    OtherHeapKept(s, s', Sw);
    OtherHeapKept(s, s', Hw);
    forall d: nat | d < |s'.delegates| ensures Tracked(s', d) {
      assert Tracked(s, d) && DelegateOk(s, d);
    }
  }

  // ---------- Further steps ----------

  lemma LifeOfNewClient(s: State, s': State)
    requires Life(s) && s' == Apply(s, NewClient)
    ensures Life(s')
  {
    forall c: nat | c < |s'.clients| ensures ClientOk(s', c) {
      if c < |s.clients| { assert ClientOk(s, c); }
    }
    LifeOfQuietStep(s, s');
  }

  /** A change of a client's counters or lock, or of its phase when no timer is set. */
  lemma LifeOfClientStep(s: State, c: nat, client: Client, s': State)
    requires Life(s) && c < |s.clients| && s' == SetClient(s, c, client)
    requires client.timer == s.clients[c].timer
    requires client.phase == s.clients[c].phase || (client.timer == None && !InExpire(s, c))
    ensures Life(s')
  {
    forall k: nat | k < |s'.clients| ensures ClientOk(s', k) {
      assert ClientOk(s, k);
    }
    LifeOfQuietStep(s, s');
  }

  lemma LifeOfStopByClient(s: State, c: nat, s': State)
    requires Life(s) && c < |s.clients| && s' == StopByClient(s, c)
    ensures Life(s') && s'.clients[c].timer == None && s'.clients[c].phase == s.clients[c].phase && s'.task == s.task
  {
    assert ClientOk(s, c);
    if HasTimer(s, c) {
      var s1 := StopLocked(s, c);
      LifeOfStop(s, c);
      LifeOfClientStep(s1, c, s1.clients[c].(stops := s1.clients[c].stops + 1), s');
    }
  }

  lemma LifeOfClose(s: State, c: nat, s': State)
    requires Life(s) && Enabled(s, Close(c)) && s' == Apply(s, Close(c))
    ensures Life(s')
  {
    var s1 := StopByClient(s, c);
    LifeOfStopByClient(s, c, s1);
    LifeOfClientStep(s1, c, s1.clients[c].(phase := Closing), s');
  }

  lemma LifeOfDropLock(s: State, c: nat, s': State)
    requires Life(s) && Enabled(s, DropLock(c)) && s' == Apply(s, DropLock(c))
    ensures Life(s')
  {
    assert ClientOk(s, c);
    LifeOfClientStep(s, c, Drop(s.clients[c]).(phase := Gone), s');
  }

  /** A step of the kernel, the clock or the poll thread that sends no message. */
  lemma LifeOfOutsideStep(s: State, s': State)
    requires Life(s) && s'.log == s.log && s'.taken == s.taken && s'.delegates == s.delegates
    requires s'.clients == s.clients && s'.task == s.task
    requires s'.sw.heap == s.sw.heap && s'.hw.heap == s.hw.heap
    ensures Life(s')
  {
    hide WellFormed, Elems;
    forall c: nat | c < |s'.clients| ensures ClientOk(s', c) {
      assert ClientOk(s, c);
    }
    LifeOfQuietStep(s, s');
  }

  lemma LifeOfSendExpire(s: State, k: Kind, s': State)
    requires Life(s) && s'.log == s.log + [ExpireMsg(k)] && s'.taken == s.taken && s'.delegates == s.delegates
    requires s'.clients == s.clients && s'.task == s.task && s'.sw == s.sw && s'.hw == s.hw
    ensures Life(s')
  {
    hide WellFormed, Elems;
    forall d: nat | d < |s'.delegates| ensures DelegateOk(s', d) && Tracked(s', d) {
      assert DelegateOk(s, d) && Tracked(s, d);
    }
    forall i: nat | i < |s'.log| ensures MsgOk(s', i) {
      if i < |s.log| { assert MsgOk(s, i); }
    }
    forall c: nat | c < |s'.clients| ensures ClientOk(s', c) {
      assert ClientOk(s, c);
    }
    HeapsKept(s, s');
  }

  lemma LifeOfPollCall(s: State, s': State)
    requires Life(s) && Enabled(s, PollCall) && s' == Apply(s, PollCall)
    ensures Life(s')
  {
    if s.poller.calls == 0 || s.poller.calls == 1 {
      LifeOfOutsideStep(s, s');
    } else {
      LifeOfSendExpire(s, s.poller.events[0], s');
    }
  }

  /** The message thread goes on with, or enters, or leaves updateSoonestTime. */
  lemma LifeOfUpdateStep(s: State, victim: Option<nat>, s': State)
    requires Life(s) && QuietStep(s, s') && s'.clients == s.clients
    requires (s.task.Updating? && s.task.victim == victim) || (s.task.Expiring? && s.task.stage == Looping && victim == None)
    requires (s'.task.Updating? && s'.task.victim == victim) || (s'.task == Idle && victim == None)
    ensures Life(s')
  {
    hide WellFormed, Elems;
    forall c: nat | c < |s'.clients| ensures ClientOk(s', c) {
      assert ClientOk(s, c);
    }
    forall d: nat | d < |s'.delegates| ensures Tracked(s', d) {
      assert Tracked(s, d);
    }
    LifeOfTaskStep(s, s');
  }

  lemma LifeOfUpdateCall(s: State, s': State)
    requires Life(s) && Enabled(s, UpdateCall) && s' == Apply(s, UpdateCall)
    ensures Life(s')
  {
    LifeOfUpdateStep(s, s.task.victim, s');
  }

  /** The delegate is deleted here, and only here. */
  lemma LifeOfDelete(s: State, d: nat, s': State)
    requires Life(s) && Enabled(s, Delete) && s.task.victim == Some(d) && s' == DeleteDelegate(s, d)
    ensures Life(s')
  {
    hide WellFormed, Elems;
    forall e: nat | e < |s'.delegates| ensures DelegateOk(s', e) && Tracked(s', e) {
      assert DelegateOk(s, e) && Tracked(s, e);
    }
    forall i: nat | i < |s'.log| ensures MsgOk(s', i) {
      assert MsgOk(s, i);
    }
    forall c: nat | c < |s'.clients| ensures ClientOk(s', c) {
      assert ClientOk(s, c);
    }
    HeapsKept(s, s');
  }

  lemma LifeOfReadClient(s: State, d: nat, s': State)
    requires Life(s) && Enabled(s, ReadClient) && s.task.stage == Popped(d) && s' == ReadMClient(s, d)
    ensures Life(s')
  {
    hide WellFormed, Elems;
    assert DelegateOk(s, d);
    assert ClientOk(s, s.delegates[d].owner);
    forall c: nat | c < |s'.clients| ensures ClientOk(s', c) {
      assert ClientOk(s, c);
    }
    forall e: nat | e < |s'.delegates| ensures Tracked(s', e) {
      assert Tracked(s, e);
    }
    LifeOfTaskStep(s, s');
  }

  /** A change of the stage of the expire loop from Stopping(c) when `c` has no timer set. */
  lemma LifeOfStageStep(s: State, stage: Stage, s': State)
    requires Life(s) && s.task.Expiring? && !s.task.stage.Popped? && s' == s.(task := s.task.(stage := stage))
    requires stage == Looping || (stage.Calling? && IsClient(s, stage.client))
    requires s.task.stage.Stopping? ==> s.task.stage.client < |s.clients| && s.clients[s.task.stage.client].timer == None
    ensures Life(s')
  {
    hide WellFormed, Elems;
    forall c: nat | c < |s'.clients| ensures ClientOk(s', c) {
      assert ClientOk(s, c);
    }
    forall e: nat | e < |s'.delegates| ensures Tracked(s', e) {
      assert Tracked(s, e) && DelegateOk(s, e);
    }
    LifeOfTaskStep(s, s');
  }

  lemma LifeOfStopClient(s: State, c: nat, s': State)
    requires Life(s) && s.task.Expiring? && s.task.stage == Stopping(c) && s' == StopByExpire(s, c)
    ensures Life(s')
  {
    hide WellFormed, Elems;
    assert ClientOk(s, c);
    if HasTimer(s, c) {
      LifeOfStop(s, c);
      LifeOfStageStep(StopLocked(s, c), Calling(c), s');
    } else {
      LifeOfStageStep(s, Looping, s');
    }
  }

  lemma LifeOfCallback(s: State, s': State)
    requires Life(s) && Enabled(s, Callback) && s' == Apply(s, Callback)
    ensures Life(s')
  {
    hide WellFormed, Elems;
    var c := s.task.stage.client;
    var client := s.clients[c].(callbacks := s.clients[c].callbacks + 1);
    LifeOfClientStep(s, c, client, SetClient(s, c, client));
    LifeOfStageStep(SetClient(s, c, client), Looping, s');
  }

  /** A pop in the loop hands the timer `x` from the heap to the message thread. */
  lemma LifeOfLoopPop(s: State, k: Kind, x: Timer, s': State)
    requires Life(s) && s.task.Expiring? && s.task.stage == Looping && s.task.kind == k
    requires s'.log == s.log && s'.taken == s.taken && s'.delegates == s.delegates && s'.clients == s.clients
    requires s'.task.Expiring? && s'.task.stage == Popped(x.id)
    requires s'.Heap(Other(k)) == s.Heap(Other(k)) && WellFormed(s'.Heap(k), Earlier)
    requires x in Elems(s.Heap(k)) && Elems(s.Heap(k)) == Elems(s'.Heap(k)) + multiset{x}
    ensures Life(s')
  {
    hide WellFormed, Elems;
    assert HeapOk(s, k) && HeapOk(s, Other(k));
    assert InHeapOk(s, k, x);
    forall d: nat | d < |s'.delegates| ensures DelegateOk(s', d) {
      assert DelegateOk(s, d);
    }
    forall i: nat | i < |s'.log| ensures MsgOk(s', i) {
      assert MsgOk(s, i);
    }
    forall c: nat | c < |s'.clients| ensures ClientOk(s', c) {
      assert ClientOk(s, c);
    }
    LoopPopHeaps(s, k, x, s');
    forall d: nat | d < |s'.delegates| ensures Tracked(s', d) {
      assert Tracked(s, d);
      assert d != x.id ==> s.TimerOf(d) != x;
      assert s.delegates[d].kind == k || s.delegates[d].kind == Other(k);
    }
  }

  lemma LoopPopHeaps(s: State, k: Kind, x: Timer, s': State)
    requires HeapOk(s, k) && HeapOk(s, Other(k)) && InHeapOk(s, k, x)
    requires s'.taken == s.taken && s'.delegates == s.delegates
    requires s'.task.Expiring? && s'.task.stage == Popped(x.id)
    requires s'.Heap(Other(k)) == s.Heap(Other(k)) && WellFormed(s'.Heap(k), Earlier)
    requires Elems(s.Heap(k)) == Elems(s'.Heap(k)) + multiset{x}
    ensures HeapOk(s', k) && HeapOk(s', Other(k))
  {
    hide WellFormed, Elems;
    forall y | y in Elems(s'.Heap(k)) ensures InHeapOk(s', k, y) {
      assert y in Elems(s.Heap(k)) && y != x;
      assert InHeapOk(s, k, y);
    }
    forall y | y in Elems(s'.Heap(Other(k))) ensures InHeapOk(s', Other(k), y) {
      assert InHeapOk(s, Other(k), y);
    }
  }

  lemma LoopPoppedHeap(s: State)
    requires s.task.Expiring? && WellFormed(s.Heap(s.task.kind), Earlier)
    requires s.Heap(s.task.kind).Node? && NotInFuture(s.Heap(s.task.kind).data, s.task.now)
    ensures var k := s.task.kind;
            && WellFormed(PopIfDue(s).Heap(k), Earlier)
            && s.Heap(k).data in Elems(s.Heap(k))
            && Elems(s.Heap(k)) == Elems(PopIfDue(s).Heap(k)) + multiset{s.Heap(k).data}
  {
    PopFacts(s.Heap(s.task.kind));
  }

  lemma LifeOfPopNext(s: State, k: Kind, s': State)
    requires Life(s) && Enabled(s, PopNext) && s.task.kind == k && s' == PopIfDue(s)
    requires s.Heap(k).Node? && NotInFuture(s.Heap(k).data, s.task.now)
    ensures Life(s')
  {
    hide WellFormed, Elems;
    assert HeapOk(s, k);
    LoopPoppedHeap(s);
    LifeOfLoopPop(s, k, s.Heap(k).data, s');
  }

  lemma LifeOfLoopEnd(s: State, k: Kind, s': State)
    requires Life(s) && Enabled(s, PopNext) && s.task.kind == k && s' == PopIfDue(s)
    requires !(s.Heap(k).Node? && NotInFuture(s.Heap(k).data, s.task.now))
    ensures Life(s')
  {
    hide WellFormed, Elems;
    LifeOfUpdateStep(s, None, s');
  }

  // ---------- All steps ----------

  lemma LifeOfTake(s: State, s': State)
    requires Life(s) && Enabled(s, Take) && s' == TakeMsg(s)
    ensures Life(s')
  {
    match s.log[s.taken]
    case PushMsg(k, d) => LifeOfPush(s, k, d, s');
    case RemoveMsg(k, d) => LifeOfRemove(s, k, d, s');
    case ExpireMsg(k) =>
      if s.Heap(k).Node? { LifeOfExpire(s, k, s'); } else { LifeOfIdleExpire(s, k, s'); }
  }

  /** Every step keeps the invariant. */
  lemma LifeOfStep(s: State, e: Event, s': State)
    requires Life(s) && Enabled(s, e) && s' == Apply(s, e)
    ensures Life(s')
  {
    match e
    case NewClient => LifeOfNewClient(s, s');
    case Start(c, ms, kind) => LifeOfStart(s, c, ms, kind);
    case Stop(c) => LifeOfStopByClient(s, c, s');
    case Close(c) => LifeOfClose(s, c, s');
    case DropLock(c) => LifeOfDropLock(s, c, s');
    case Tick(_) => LifeOfOutsideStep(s, s');
    case KernelFire(_) => LifeOfOutsideStep(s, s');
    case PollWake(_) => LifeOfOutsideStep(s, s');
    case PollCall => LifeOfPollCall(s, s');
    case Take => LifeOfTake(s, s');
    case UpdateCall => LifeOfUpdateCall(s, s');
    case Delete => LifeOfDelete(s, s.task.victim.value, s');
    case ReadClient => LifeOfReadClient(s, s.task.stage.id, s');
    case StopClient => LifeOfStopClient(s, s.task.stage.client, s');
    case Callback => LifeOfCallback(s, s');
    case PopNext =>
      var k := s.task.kind;
      if s.Heap(k).Node? && NotInFuture(s.Heap(k).data, s.task.now) {
        LifeOfPopNext(s, k, s');
      } else {
        LifeOfLoopEnd(s, k, s');
      }
  }
}
