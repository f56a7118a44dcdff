/**
  The objects of gps/utils/LocTimer.cpp with their fields updated in place, each method proved
  against the functions that the transition system of module TimerProtocol is made of. The methods
  here run undisturbed; how they interleave is the matter of TimerProtocol.
 */
module LocTimer {
  import opened Wrappers
  import opened Deadline
  import opened TimerProtocol
  import Spec = LocHeapSpec
  import TimerAccounts
  import H = LocHeap

  /** LocSharedLock: share and drop. */
  class LocSharedLock {
    var mRef: int
    var deleted: bool

    constructor ()
      ensures mRef == 1 && !deleted
    {
      mRef, deleted := 1, false;
    }

    method Share()
      modifies this
      ensures mRef == old(mRef) + 1 && deleted == old(deleted)
    {
      mRef := mRef + 1;
    }

    method Drop()
      modifies this
      ensures mRef == old(mRef) - 1 && deleted == (old(deleted) || old(mRef) == 1)
    {
      if mRef == 1 { deleted := true; }
      mRef := mRef - 1;
    }
  }

  datatype TimerMsg = Push(kind: Kind, timer: LocTimerDelegate) | Remove(kind: Kind, timer: LocTimerDelegate)

  /** The message task, as far as a client sees it: it accepts messages. */
  class MsgSink {
    var msgs: seq<TimerMsg>

    constructor ()
      ensures msgs == []
    {
      msgs := [];
    }
  }

  class LocTimerDelegate {
    var mClient: LocTimer?
    var inContainer: bool      // mContainer is not NULL
    const kind: Kind
    const mLock: LocSharedLock
    const mFutureTime: TimeSpec

    constructor (client: LocTimer, lock: LocSharedLock, futureTime: TimeSpec, kind: Kind)
      ensures mClient == client && inContainer && this.kind == kind && mLock == lock && mFutureTime == futureTime
    {
      mClient, inContainer, this.kind, mLock, mFutureTime := client, true, kind, lock, futureTime;
    }

    method DestroyLocked(q: MsgSink)
      modifies this, q
      ensures mClient == null && !inContainer
      ensures q.msgs == if old(inContainer) then old(q.msgs) + [Remove(kind, this)] else old(q.msgs)
    {
      mClient := null;
      if inContainer {
        inContainer := false;
        q.msgs := q.msgs + [Remove(kind, this)];
      }
    }
  }

  class LocTimer {
    var mTimer: LocTimerDelegate?
    const mLock: LocSharedLock

    /** mTimer and mClient point to each other, and the delegate is in a container. */
    ghost predicate Valid()
      reads this, mTimer
    {
      mTimer != null ==> mTimer.mClient == this && mTimer.inContainer && mTimer.mLock == mLock
    }

    constructor ()
      ensures Valid() && mTimer == null && fresh(mLock) && mLock.mRef == 1 && !mLock.deleted
    {
      mTimer := null;
      mLock := new LocSharedLock();
    }

    method Start(now: TimeSpec, timeOutInMs: nat, kind: Kind, q: MsgSink) returns (success: bool)
      requires Valid() && Normal(now) && 0 <= now.sec && timeOutInMs < UINT32_LIMIT
      modifies this, mLock, q
      ensures Valid() && mTimer != null && success == (old(mTimer) == null)
      ensures !success ==> mTimer == old(mTimer) && mLock.mRef == old(mLock.mRef) && q.msgs == old(q.msgs)
      ensures success ==>
                && fresh(mTimer) && mTimer.kind == kind
                && mTimer.mFutureTime == OfNs(ToNs(now) + timeOutInMs * 1000000)
                && mLock.mRef == old(mLock.mRef) + 1
                && q.msgs == old(q.msgs) + [Push(kind, mTimer)]
    {
      success := false;
      if mTimer == null {
        var futureTime := FutureTime(now, timeOutInMs);
        mLock.Share();
        mTimer := new LocTimerDelegate(this, mLock, futureTime, kind);
        q.msgs := q.msgs + [Push(kind, mTimer)];
        success := true;
      }
    }

    method Stop(q: MsgSink) returns (success: bool)
      requires Valid()
      modifies this, mTimer, q
      ensures Valid() && mTimer == null && success == (old(mTimer) != null)
      ensures success ==> old(mTimer).mClient == null && q.msgs == old(q.msgs) + [Remove(old(mTimer).kind, old(mTimer))]
      ensures !success ==> q.msgs == old(q.msgs)
    {
      success := false;
      if mTimer != null {
        var timer := mTimer;
        mTimer := null;
        timer.DestroyLocked(q);
        success := true;
      }
    }
  }

  /** LocTimerContainer: the heap, and the kernel timer with its place in the epoll set. */
  class LocTimerContainer {
    const kind: Kind
    const heap: H.LocHeap<Timer>
    var kernel: Kernel
    var polled: bool

    ghost predicate Valid()
      reads this, heap, heap.nodes
    {
      heap.Valid()
    }

    /** The container as the transition system sees it. */
    ghost function Value(): Container
      requires Valid()
      reads this, heap, heap.nodes
    {
      Container(heap.Value(), kernel, polled)
    }

    constructor (kind: Kind)
      ensures this.kind == kind && Valid() && Value() == EMPTY && fresh(heap) && heap.nodes == {}
    {
      this.kind := kind;
      heap := new H.LocHeap();
      kernel, polled := Disarmed, false;
    }

    method AddPoll()
      modifies this
      ensures polled && kernel == old(kernel)
    {
      polled := true;
    }

    method RemovePoll()
      modifies this
      ensures !polled && kernel == old(kernel)
    {
      polled := false;
    }

    method SetTime(at: nat)
      modifies this
      ensures kernel == (if at == 0 then Disarmed else Armed(at)) && polled == old(polled)
    {
      kernel := if at == 0 then Disarmed else Armed(at);
    }

    method UpdateSoonestTime(priorTop: Option<Timer>)
      requires Valid()
      modifies this
      ensures Valid()
      ensures Value() == DoAll(old(Value()), TimerProtocol.UpdateSoonestTime(Spec.Peek(old(heap.Value())), priorTop))
    {
      var curTop := heap.Peek();
      if curTop != priorTop {
        var toSetTime, delay := false, 0;
        if curTop.None? {
          RemovePoll();
          toSetTime := true;
        } else if priorTop.None? || Earlier(curTop.value, priorTop.value) {
          AddPoll();
          delay := curTop.value.due;
          toSetTime := true;
        }
        if toSetTime {
          SetTime(delay);
        }
        TwoCalls(old(Value()), TimerProtocol.UpdateSoonestTime(curTop, priorTop));
      }
    }

    static lemma TwoCalls(c: Container, calls: seq<Call>)
      requires |calls| == 0 || |calls| == 2
      ensures DoAll(c, calls) == if calls == [] then c else Do(Do(c, calls[0]), calls[1])
    {
      if |calls| == 2 {
        var c1 := Do(c, calls[0]);
        assert calls[1..] == [calls[1]] && [calls[1]][1..] == [];
        assert DoAll(c1, [calls[1]]) == DoAll(Do(c1, calls[1]), []);
      }
    }

    /** MsgTimerPush::proc. */
    method PushProc(timer: Timer)
      requires Valid()
      modifies this, heap, heap.nodes
      ensures Valid() && fresh(heap.nodes - old(heap.nodes))
      ensures Value() == WithTimer(old(Value()), timer)
    {
      var priorTop := heap.Peek();
      heap.Push(timer, Earlier);
      UpdateSoonestTime(priorTop);
    }

    /** MsgTimerRemove::proc, up to the delete. */
    method RemoveProc(timer: Timer)
      requires Valid()
      modifies this, heap, heap.nodes
      ensures Valid() && heap.nodes <= old(heap.nodes)
      ensures Value() == WithoutTimer(old(Value()), timer)
    {
      var priorTop := heap.Peek();
      var removed := heap.Remove(timer, Earlier);
      if priorTop == removed {
        UpdateSoonestTime(None);
      }
    }

    /** LocTimerContainer::popIfOutRanks against the time `now`. */
    method PopIfOutRanks(now: nat) returns (popped: Option<Timer>)
      requires Valid()
      modifies heap, heap.nodes
      ensures Valid() && heap.nodes <= old(heap.nodes)
      ensures var h := old(heap.Value());
              if h.Node? && NotInFuture(h.data, now)
              then popped == Some(h.data) && heap.Value() == Spec.Pop(h, Earlier)
              else popped == None && heap.Value() == h
    {
      popped := None;
      var top := heap.Peek();
      if top.Some? && !Earlier(Timer(0, now), top.value) {
        popped := heap.Pop(Earlier);
      }
    }

    /** The pops of the loop of MsgTimerExpire, seen from its head. */
    static ghost function Pops(expired: seq<Timer>, timer: Option<Timer>, h: Spec.Tree<Timer>, now: nat): (seq<Timer>, Spec.Tree<Timer>) {
      if timer.None? then (expired, h)
      else (expired + ([timer.value] + TimerAccounts.DuePops(h, now).0), TimerAccounts.DuePops(h, now).1)
    }

    static lemma PopsOfStep(expired: seq<Timer>, timer: Timer, h: Spec.Tree<Timer>, now: nat, next: Option<Timer>, left: Spec.Tree<Timer>)
      requires if h.Node? && NotInFuture(h.data, now) then next == Some(h.data) && left == Spec.Pop(h, Earlier)
               else next == None && left == h
      ensures Pops(expired + [timer], next, left, now) == Pops(expired, Some(timer), h, now)
      ensures next.Some? ==> Spec.Nodes(left) < Spec.Nodes(h)
    {
      hide Spec.Pop;
      if next.Some? {
        Spec.PopElems(h, Earlier);
        assert expired + ([timer] + ([h.data] + TimerAccounts.DuePops(left, now).0))
            == (expired + [timer]) + ([h.data] + TimerAccounts.DuePops(left, now).0);
      } else {
        assert expired + ([timer] + []) == expired + [timer];
      }
    }

    /** MsgTimerExpire::proc; `expired` are the timers on which expire() is called, in order. */
    method ExpireProc(now: nat) returns (expired: seq<Timer>)
      requires Valid()
      modifies this, heap, heap.nodes
      ensures Valid() && heap.nodes <= old(heap.nodes)
      ensures var (popped, left) := TimerAccounts.ExpiryPops(old(heap.Value()), now);
              && expired == popped
              && Value() == DoAll(old(Value()).(heap := left), TimerProtocol.UpdateSoonestTime(Spec.Peek(left), None))
    {
      ghost var before := heap.Value();
      expired := [];
      var timer := heap.Pop(Earlier);
      assert [] + TimerAccounts.ExpiryPops(before, now).0 == TimerAccounts.ExpiryPops(before, now).0;
      while timer != None
        invariant Valid() && heap.nodes <= old(heap.nodes)
        invariant kernel == old(kernel) && polled == old(polled)
        invariant TimerAccounts.ExpiryPops(before, now) == Pops(expired, timer, heap.Value(), now)
        decreases Spec.Nodes(heap.Value()), timer.Some?
      {
        ghost var h := heap.Value();
        var next := PopIfOutRanks(now);
        PopsOfStep(expired, timer.value, h, now, next, heap.Value());
        expired := expired + [timer.value];
        timer := next;
      }
      UpdateSoonestTime(None);
    }

    /** LocTimerContainer::expire, run by the poll thread: it also sends the Expire message. */
    method Expire() returns (sent: Msg)
      requires Valid()
      modifies this
      ensures Valid() && sent == ExpireMsg(kind) && kernel == Disarmed && !polled
      ensures Value() == DoAll(old(Value()), [TimerProtocol.SetTime(0), DelPoll])
    {
      SetTime(0);
      RemovePoll();
      TwoCalls(old(Value()), [TimerProtocol.SetTime(0), DelPoll]);
      sent := ExpireMsg(kind);
    }
  }
}
