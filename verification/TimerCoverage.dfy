/**
  No expiry is lost: in every interleaving of clients, message thread, poll thread and kernel, a
  container with a timer in it has its soonest deadline looked after by somebody.
 */
module TimerCoverage {
  import opened Wrappers
  import opened LocHeapSpec
  import opened TimerProtocol
  import opened TimerLifetime

  /** All clock readings and deadlines are positive and early enough to be ranked exactly. */
  ghost predicate TimesOk(s: State) {
    && ReadingOk(s.clock)
    && forall d: nat :: d < |s.delegates| ==> 0 < s.delegates[d].due < DUE_LIMIT
  }

  lemma TimesOfStep(s: State, e: Event, s': State)
    requires TimesOk(s) && Enabled(s, e) && s' == Apply(s, e)
    ensures TimesOk(s')
  {
  }

  /** The poll thread never has two events of one container to handle. */
  ghost predicate PollerOk(p: Poller) {
    p.Handling? ==> 1 <= |p.events| <= 2 && (|p.events| == 2 ==> p.events[0] != p.events[1])
  }

  /** Both threads have something to do when they are not waiting. */
  ghost predicate ThreadsOk(s: State) {
    PollerOk(s.poller) && (s.task.Updating? ==> s.task.calls != [] || s.task.victim.Some?)
  }

  lemma ThreadsOfStep(s: State, e: Event, s': State)
    requires ThreadsOk(s) && Enabled(s, e) && s' == Apply(s, e)
    ensures ThreadsOk(s')
  {
  }

  /** An Expire message for `k` is queued. */
  ghost predicate Pending(s: State, k: Kind) {
    exists j: nat :: s.taken <= j < |s.log| && s.log[j] == ExpireMsg(k)
  }

  /** The poll thread has seen an event of `k` and has not yet sent the Expire message for it. */
  ghost predicate Handles(s: State, k: Kind) {
    s.poller.Handling? && k in s.poller.events
  }

  /** The kernel will report, or has reported, the soonest deadline of `k`. */
  ghost predicate Watched(c: Container)
    requires c.heap.Node?
  {
    c.polled && (c.kernel == Armed(c.heap.data.due) || c.kernel == Fired)
  }

  ghost predicate Covered(s: State, k: Kind) {
    s.Heap(k).Node? ==> Watched(s.At(k)) || Handles(s, k) || Pending(s, k)
  }

  ghost predicate InLoop(s: State, k: Kind) {
    s.task.Expiring? && s.task.kind == k
  }

  ghost predicate InUpdate(s: State, k: Kind) {
    s.task.Updating? && s.task.kind == k && s.task.calls != []
  }

  /** The calls that updateSoonestTime still has to make always arm the timer for the present top. */
  ghost predicate UpdateOk(s: State, k: Kind)
    requires InUpdate(s, k)
  {
    && s.Heap(k).Node?
    && (|| s.task.calls == [AddPoll, SetTime(s.Heap(k).data.due)]
        || (s.task.calls == [SetTime(s.Heap(k).data.due)] && (s.At(k).polled || Handles(s, k) || Pending(s, k))))
  }

  ghost predicate CoverOk(s: State, k: Kind) {
    if InLoop(s, k) then true
    else if InUpdate(s, k) then UpdateOk(s, k)
    else Covered(s, k)
  }

  /** The container is as it was, nobody who looked after it gave up, and the message thread is at
      the same point with regard to it. */
  lemma CoverKept(s: State, k: Kind, s': State)
    requires CoverOk(s, k)
    requires s'.Heap(k) == s.Heap(k) && (s'.At(k) == s.At(k) || Handles(s', k) || Pending(s', k))
    requires Handles(s, k) ==> Handles(s', k) || Pending(s', k)
    requires Pending(s, k) ==> Pending(s', k)
    requires s'.task == s.task || (!InLoop(s, k) && !InUpdate(s, k) && !InLoop(s', k) && !InUpdate(s', k))
             || (InLoop(s, k) && InLoop(s', k))
    ensures CoverOk(s', k)
  {
  }

  lemma PendingGrows(s: State, k: Kind, s': State)
    requires Pending(s, k) && s'.taken == s.taken && |s.log| <= |s'.log| && s'.log[..|s.log|] == s.log
    ensures Pending(s', k)
  {
    var j: nat :| s.taken <= j < |s.log| && s.log[j] == ExpireMsg(k);
    assert s'.log[j] == s.log[j];
  }

  lemma PendingLater(s: State, k: Kind, s': State)
    requires Pending(s, k) && s'.log == s.log && s'.taken == s.taken + 1 && s.log[s.taken] != ExpireMsg(k)
    ensures Pending(s', k)
  {
    var j: nat :| s.taken <= j < |s.log| && s.log[j] == ExpireMsg(k);
    assert s.taken < j;
  }

  /** Clients only add Push and Remove messages. */
  lemma CoverOfClientStep(s: State, k: Kind, s': State)
    requires CoverOk(s, k) && s'.taken == s.taken && |s.log| <= |s'.log| && s'.log[..|s.log|] == s.log
    requires s'.sw == s.sw && s'.hw == s.hw && s'.poller == s.poller
    requires s'.task == s.task || (s.task.Expiring? && s'.task.Expiring? && s.task.kind == s'.task.kind)
    ensures CoverOk(s', k)
  {
    if Pending(s, k) { PendingGrows(s, k, s'); }
    CoverKept(s, k, s');
  }

  lemma CoverOfKernelFire(s: State, f: Kind, k: Kind, s': State)
    requires CoverOk(s, k) && Enabled(s, KernelFire(f)) && s' == Apply(s, KernelFire(f))
    ensures CoverOk(s', k)
  {
    if Pending(s, k) { PendingGrows(s, k, s'); }
  }

  lemma CoverOfPollWake(s: State, events: seq<Kind>, k: Kind, s': State)
    requires CoverOk(s, k) && Enabled(s, PollWake(events)) && s' == Apply(s, PollWake(events))
    ensures CoverOk(s', k)
  {
    if Pending(s, k) { PendingGrows(s, k, s'); }
    CoverKept(s, k, s');
  }

  lemma CoverOfPollCall(s: State, k: Kind, s': State)
    requires CoverOk(s, k) && s.taken <= |s.log| && Enabled(s, PollCall) && s' == Apply(s, PollCall)
    ensures CoverOk(s', k)
  {
    if Pending(s, k) { PendingGrows(s, k, s'); }
    if s.poller.calls != 0 && s.poller.calls != 1 && s.poller.events[0] == k {
      assert s'.log[|s.log|] == ExpireMsg(k);
      PendingSent(s', k);
    }
    CoverKept(s, k, s');
  }

  lemma PendingSent(s: State, k: Kind)
    requires s.taken < |s.log| && s.log[|s.log| - 1] == ExpireMsg(k)
    ensures Pending(s, k)
  {
    var j: nat := |s.log| - 1;
    assert s.taken <= j < |s.log|;
  }

  /** addPoll leaves SetTime to do; SetTime then arms the timer for the top. */
  lemma CoverOfUpdateCall(s: State, k: Kind, s': State)
    requires CoverOk(s, k) && Enabled(s, UpdateCall) && s' == Apply(s, UpdateCall)
    requires s.Heap(k).Node? ==> s.Heap(k).data.due != 0
    ensures CoverOk(s', k)
  {
    if Pending(s, k) { PendingGrows(s, k, s'); }
    if s.task.kind == k {
      assert InUpdate(s, k) && UpdateOk(s, k);
      var due := s.Heap(k).data.due;
      if s.task.calls == [AddPoll, SetTime(due)] {
        assert s.task.calls[1..] == [SetTime(due)];
        assert InUpdate(s', k);
      } else {
        assert s.task.calls[1..] == [];
        assert !InUpdate(s', k) && !InLoop(s', k);
      }
    } else {
      CoverKept(s, k, s');
    }
  }

  lemma CoverOfDelete(s: State, k: Kind, s': State)
    requires CoverOk(s, k) && Enabled(s, Delete) && s' == Apply(s, Delete)
    ensures CoverOk(s', k)
  {
    if Pending(s, k) { PendingGrows(s, k, s'); }
    CoverKept(s, k, s');
  }

  /** After a change of the heap, updateSoonestTime re-arms the timer whenever it is called with
      NULL, or with the previous top and the top is no longer that one. */
  lemma CoverOfNewTop(s: State, k: Kind, prior: Option<Timer>, victim: Option<nat>, s': State)
    requires s'.task == Update(k, UpdateSoonestTime(Peek(s'.Heap(k)), prior), victim)
    requires prior.Some? ==> s'.Heap(k).Node?
    requires prior.Some? && Peek(s'.Heap(k)) != prior ==> Earlier(s'.Heap(k).data, prior.value)
    requires prior.Some? && Peek(s'.Heap(k)) == prior ==> Covered(s', k)
    ensures CoverOk(s', k)
  {
    if s'.Heap(k).Node? && Peek(s'.Heap(k)) != prior {
      assert InUpdate(s', k);
    } else {
      assert !InUpdate(s', k) && !InLoop(s', k);
    }
  }

  lemma CoverOfOtherTake(s: State, k: Kind, s': State)
    requires CoverOk(s, k) && s.task == Idle && s.taken < |s.log| && s.log[s.taken].kind != k
    requires s'.log == s.log && s'.taken == s.taken + 1 && s'.At(k) == s.At(k) && s'.poller == s.poller
    requires !InLoop(s', k) && !InUpdate(s', k)
    ensures CoverOk(s', k)
  {
    if Pending(s, k) { PendingLater(s, k, s'); }
    CoverKept(s, k, s');
  }

  /** What looks after `k` outlives the taking of a Push or Remove message, if the top stays. */
  lemma CoveredStill(s: State, k: Kind, s': State)
    requires Covered(s, k) && s.taken < |s.log| && s.log[s.taken] != ExpireMsg(k)
    requires s'.log == s.log && s'.taken == s.taken + 1 && s'.poller == s.poller
    requires Peek(s'.Heap(k)) == Peek(s.Heap(k))
    requires s'.At(k).kernel == s.At(k).kernel && s'.At(k).polled == s.At(k).polled
    ensures Covered(s', k)
  {
    if Pending(s, k) { PendingLater(s, k, s'); }
  }

  lemma CoverOfPush(s: State, k: Kind, d: nat, s': State)
    requires CoverOk(s, k) && s.task == Idle && s.taken < |s.log| && s.log[s.taken] == PushMsg(k, d)
    requires WellFormed(s.Heap(k), Earlier) && d < |s.delegates| && s' == TakeMsg(s)
    ensures CoverOk(s', k)
  {
    PushFacts(s.Heap(k), s.TimerOf(d));
    if Peek(s'.Heap(k)) == Peek(s.Heap(k)) { CoveredStill(s, k, s'); }
    CoverOfNewTop(s, k, Peek(s.Heap(k)), None, s');
  }

  lemma CoverOfRemove(s: State, k: Kind, d: nat, s': State)
    requires CoverOk(s, k) && s.task == Idle && s.taken < |s.log| && s.log[s.taken] == RemoveMsg(k, d)
    requires WellFormed(s.Heap(k), Earlier) && d < |s.delegates| && s' == TakeMsg(s)
    ensures CoverOk(s', k)
  {
    var h, x := s.Heap(k), s.TimerOf(d);
    RemoveFacts(h, x);
    if h.Node? && Peek(h) != Some(x) {
      assert Peek(s'.Heap(k)) == Peek(h);
      CoveredStill(s, k, s');
    } else if h.Node? {
      TopIsThere(h);
      CoverOfNewTop(s, k, None, Some(d), s');
    }
  }

  lemma TopIsThere(h: Tree<Timer>)
    requires h.Node?
    ensures h.data in Elems(h)
  {
  }

  lemma CoverOfExpire(s: State, k: Kind, s': State)
    requires CoverOk(s, k) && s.task == Idle && s.taken < |s.log| && s.log[s.taken] == ExpireMsg(k)
    requires s' == TakeMsg(s)
    ensures CoverOk(s', k)
  {
  }

  lemma CoverOfPopNext(s: State, k: Kind, s': State)
    requires CoverOk(s, k) && Enabled(s, PopNext) && s' == PopIfDue(s)
    ensures CoverOk(s', k)
  {
    if Pending(s, k) { PendingGrows(s, k, s'); }
    if s.task.kind == k {
      if !s'.task.Expiring? { CoverOfNewTop(s, k, None, None, s'); }
    } else {
      CoverKept(s, k, s');
    }
  }

  lemma CoverOfTake(s: State, k: Kind, s': State)
    requires Life(s) && CoverOk(s, k) && Enabled(s, Take) && s' == TakeMsg(s)
    ensures CoverOk(s', k)
  {
    assert HeapOk(s, k);
    if s.log[s.taken].kind != k {
      CoverOfOtherTake(s, k, s');
    } else {
      match s.log[s.taken]
      case PushMsg(_, d) => CoverOfPush(s, k, d, s');
      case RemoveMsg(_, d) => CoverOfRemove(s, k, d, s');
      case ExpireMsg(_) => CoverOfExpire(s, k, s');
    }
  }

  lemma CoverOfStep(s: State, e: Event, k: Kind, s': State)
    requires Life(s) && TimesOk(s) && CoverOk(s, k) && Enabled(s, e) && s' == Apply(s, e)
    ensures CoverOk(s', k)
  {
    match e
    case KernelFire(f) => CoverOfKernelFire(s, f, k, s');
    case PollWake(events) => CoverOfPollWake(s, events, k, s');
    case PollCall => CoverOfPollCall(s, k, s');
    case Take => CoverOfTake(s, k, s');
    case UpdateCall =>
      assert HeapOk(s, k);
      if s.Heap(k).Node? {
        TopIsThere(s.Heap(k));
        assert InHeapOk(s, k, s.Heap(k).data);
      }
      CoverOfUpdateCall(s, k, s');
    case Delete => CoverOfDelete(s, k, s');
    case PopNext => CoverOfPopNext(s, k, s');
    case _ => CoverOfClientStep(s, k, s');
  }
}
