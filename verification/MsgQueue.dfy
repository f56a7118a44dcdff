/**
  The blocking message queue of gps/utils/msg_q.c: the regions under its mutex as methods over the
  list, and as the steps of a transition system with any number of senders and receivers.
 */
module MsgQueue {
  import opened Wrappers
  import opened LinkedList

  // ---------- The regions under the mutex, on the list itself ----------

  datatype QStatus = QSuccess | QInvalidParameter | QInvalidHandle | QUnavailableResource

  function Convert(s: Status): QStatus {
    match s
    case Success => QSuccess
    case InvalidParameter => QInvalidParameter
    case InvalidHandle => QInvalidHandle
    case UnavailableResource => QUnavailableResource
  }

  class MsgQ<M> {
    const list: List<M>
    var unblocked: bool

    ghost predicate Valid()
      reads this, list, list.nodes
    {
      list.Valid()
    }

    constructor ()
      ensures Valid() && list.Items() == [] && !unblocked && fresh(list)
    {
      list := new List();
      unblocked := false;
    }

    /** msg_q_snd. `signalled` says that the condition variable was signalled. */
    method Snd(msg: Option<M>, dealloc: bool) returns (rv: QStatus, signalled: bool)
      requires Valid()
      modifies list, list.nodes
      ensures Valid() && unblocked == old(unblocked) && list.freed == old(list.freed)
      ensures msg.Some? && !unblocked ==> rv == QSuccess && signalled && list.Items() == Accept(old(list.Items()), Item(msg.value, dealloc))
      ensures msg.None? || unblocked ==> !signalled && list.Items() == old(list.Items())
      ensures rv == if msg.None? then QInvalidParameter else if unblocked then QUnavailableResource else QSuccess
    {
      if msg.None? {
        return QInvalidParameter, false;
      }
      if unblocked {
        return QUnavailableResource, false;
      }
      var status := list.Add(msg, dealloc);
      return Convert(status), true;
    }

    /** The test of the loop of msg_q_rcv: whether the receiver has to wait. */
    method MustWait() returns (wait: bool)
      requires Valid()
      ensures wait <==> list.Items() == [] && !unblocked
    {
      var empty := list.IsEmpty();
      wait := empty && !unblocked;
    }

    /** What msg_q_rcv does once it does not wait. */
    method TakeOut() returns (rv: QStatus, msg: Option<M>)
      requires Valid()
      modifies list, list.nodes
      ensures Valid() && list.freed == old(list.freed)
      ensures old(list.Items()) != [] ==>
                && rv == QSuccess && msg == Some(Oldest(old(list.Items())).data)
                && list.Items() == Rest(old(list.Items()))
      ensures old(list.Items()) == [] ==> rv == QUnavailableResource && msg == None && list.Items() == []
    {
      var status;
      status, msg := list.Remove();
      rv := Convert(status);
    }

    /** msg_q_flush. */
    method Flush() returns (rv: QStatus)
      requires Valid()
      modifies list
      ensures Valid() && rv == QSuccess && list.Items() == []
      ensures list.freed == old(list.freed) + Deallocated(old(list.Items()))
    {
      list.Flush();
      rv := QSuccess;
    }

    /** msg_q_unblock. `broadcast` says that all waiters were woken. */
    method Unblock() returns (rv: QStatus, broadcast: bool)
      requires Valid()
      modifies this
      ensures Valid() && unblocked && list.Items() == old(list.Items())
      ensures broadcast == !old(unblocked) && rv == if old(unblocked) then QUnavailableResource else QSuccess
    {
      if unblocked {
        return QUnavailableResource, false;
      }
      unblocked := true;
      return QSuccess, true;
    }
  }

  function Accept<M>(items: seq<Item<M>>, item: Item<M>): seq<Item<M>> {
    [item] + items
  }

  function Oldest<M>(items: seq<Item<M>>): Item<M>
    requires items != []
  {
    items[|items| - 1]
  }

  function Rest<M>(items: seq<Item<M>>): seq<Item<M>>
    requires items != []
  {
    items[..|items| - 1]
  }

  // ---------- Senders and receivers ----------

  /** A thread that is not in msg_q_rcv, sleeps on the condition variable, or was woken and has not
      yet got the mutex back. */
  datatype Receiver = Away | Sleeping | Woken

  datatype Outcome<M> =
    | Received(r: nat, msg: M)           // msg_q_rcv returned SUCCESS
    | Refused(r: nat)                    // msg_q_rcv returned UNAVAILABLE_RESOURCE
    | Flushed(items: seq<Item<M>>)       // the list as msg_q_flush found it

  /** `accepted` and `outcomes` record history; no step looks at them. */
  datatype Queue<M> = Queue(items: seq<Item<M>>, unblocked: bool, receivers: seq<Receiver>,
                            accepted: seq<Item<M>>, outcomes: seq<Outcome<M>>)

  datatype Event<M> =
    | Send(item: Item<M>, wakes: Option<nat>)  // pthread_cond_signal wakes a sleeper, if there is one
    | Enter(r: nat)                            // msg_q_rcv up to its return or its first wait
    | Wake(r: nat)                             // a spurious or surplus wake-up
    | Resume(r: nat)                           // a woken receiver goes on in its loop
    | Flush
    | Unblock

  ghost predicate Initial<M>(q: Queue<M>) {
    q.items == [] && !q.unblocked && q.accepted == [] && q.outcomes == [] && forall r :: 0 <= r < |q.receivers| ==> q.receivers[r] == Away
  }

  predicate IsIn<M>(q: Queue<M>, r: nat, at: Receiver) {
    r < |q.receivers| && q.receivers[r] == at
  }

  ghost predicate SomeSleep<M>(q: Queue<M>) {
    exists r: nat :: IsIn(q, r, Sleeping)
  }

  ghost predicate Enabled<M>(q: Queue<M>, e: Event<M>) {
    match e
    case Send(_, wakes) => if q.unblocked || !SomeSleep(q) then wakes.None? else wakes.Some? && IsIn(q, wakes.value, Sleeping)
    case Enter(r) => IsIn(q, r, Away)
    case Wake(r) => IsIn(q, r, Sleeping)
    case Resume(r) => IsIn(q, r, Woken)
    case Flush => true
    case Unblock => true
  }

  ghost function Apply<M>(q: Queue<M>, e: Event<M>): Queue<M>
    requires Enabled(q, e)
  {
    match e
    case Send(item, wakes) =>
      if q.unblocked then q
      else Woke(q.(items := Accept(q.items, item), accepted := q.accepted + [item]), wakes)
    case Enter(r) => if q.unblocked then q.(outcomes := q.outcomes + [Refused(r)]) else Loop(q, r)
    case Wake(r) => Put(q, r, Woken)
    case Resume(r) => Loop(q, r)
    case Flush => q.(items := [], outcomes := q.outcomes + [Flushed(q.items)])
    case Unblock => if q.unblocked then q else q.(unblocked := true, receivers := WakeAll(q.receivers))
  }

  function Put<M>(q: Queue<M>, r: nat, to: Receiver): Queue<M>
    requires r < |q.receivers|
  {
    q.(receivers := q.receivers[r := to])
  }

  function Woke<M>(q: Queue<M>, wakes: Option<nat>): Queue<M>
    requires wakes.Some? ==> wakes.value < |q.receivers|
  {
    if wakes.Some? then Put(q, wakes.value, Woken) else q
  }

  function WakeAll(rs: seq<Receiver>): (ws: seq<Receiver>)
    ensures |ws| == |rs|
    ensures forall r :: 0 <= r < |rs| ==> ws[r] == if rs[r] == Sleeping then Woken else rs[r]
  {
    seq(|rs|, i requires 0 <= i < |rs| => if rs[i] == Sleeping then Woken else rs[i])
  }

  /** The loop of msg_q_rcv from its test, with the mutex held. */
  function Loop<M>(q: Queue<M>, r: nat): Queue<M>
    requires r < |q.receivers|
  {
    if q.items == [] && !q.unblocked then Put(q, r, Sleeping)
    else if q.items == [] then Put(q, r, Away).(outcomes := q.outcomes + [Refused(r)])
    else Put(q, r, Away).(items := Rest(q.items), outcomes := q.outcomes + [Received(r, Oldest(q.items).data)])
  }

  ghost predicate IsRun<M>(q: Queue<M>, events: seq<Event<M>>)
    decreases |events|
  {
    events != [] ==> Enabled(q, events[0]) && IsRun(Apply(q, events[0]), events[1..])
  }

  ghost function After<M>(q: Queue<M>, events: seq<Event<M>>): Queue<M>
    requires IsRun(q, events)
    decreases |events|
  {
    if events == [] then q else After(Apply(q, events[0]), events[1..])
  }

  // ---------- No lost wake-up ----------

  ghost function WokenCount(rs: seq<Receiver>): nat {
    if rs == [] then 0 else WokenCount(rs[..|rs| - 1]) + (if rs[|rs| - 1] == Woken then 1 else 0)
  }

  lemma {:induction false} WokenCountPut(rs: seq<Receiver>, r: nat, to: Receiver)
    requires r < |rs|
    ensures WokenCount(rs[r := to]) == WokenCount(rs) - (if rs[r] == Woken then 1 else 0) + (if to == Woken then 1 else 0)
  {
    var n := |rs| - 1;
    if r == n {
      assert rs[r := to][..n] == rs[..n];
    } else {
      assert rs[r := to][..n] == rs[..n][r := to];
      WokenCountPut(rs[..n], r, to);
    }
  }

  /** While somebody sleeps there are at least as many receivers woken as messages pending; and once
      unblocked nobody sleeps. */
  ghost predicate WakeUpsOk<M>(q: Queue<M>) {
    SomeSleep(q) ==> !q.unblocked && |q.items| <= WokenCount(q.receivers)
  }

  lemma SleeperWasThere<M>(q: Queue<M>, q': Queue<M>)
    requires |q'.receivers| == |q.receivers| && SomeSleep(q')
    requires forall r: nat :: IsIn(q', r, Sleeping) ==> IsIn(q, r, Sleeping)
    ensures SomeSleep(q)
  {
    var r: nat :| IsIn(q', r, Sleeping);
    assert IsIn(q, r, Sleeping);
  }

  lemma WakeUpsOfStep<M>(q: Queue<M>, e: Event<M>, q': Queue<M>)
    requires WakeUpsOk(q) && Enabled(q, e) && q' == Apply(q, e)
    ensures WakeUpsOk(q')
  {
    if SomeSleep(q') {
      match e
      case Send(_, wakes) =>
        if wakes.Some? { WokenCountPut(q.receivers, wakes.value, Woken); }
        SleeperWasThere(q, q');
      case Enter(r) =>
        if q' != q && q.items != [] && !q.unblocked {
          WokenCountPut(q.receivers, r, Away);
          SleeperWasThere(q, q');
        } else if q.unblocked {
          SleeperWasThere(q, q');
        }
      case Wake(r) =>
        WokenCountPut(q.receivers, r, Woken);
        SleeperWasThere(q, q');
      case Resume(r) =>
        if q.items != [] || q.unblocked {
          WokenCountPut(q.receivers, r, Away);
          SleeperWasThere(q, q');
        }
      case Flush => SleeperWasThere(q, q');
      case Unblock =>
        if q.unblocked { SleeperWasThere(q, q'); }
    }
  }

  // ---------- Conservation and order ----------

  function Reverse<T>(xs: seq<T>): (r: seq<T>)
    ensures |r| == |xs|
  {
    if xs == [] then [] else Reverse(xs[1..]) + [xs[0]]
  }

  /** The messages that left the queue, in the order in which they had been accepted. */
  ghost function Settled<M>(outcomes: seq<Outcome<M>>): seq<M> {
    if outcomes == [] then []
    else
      var o := outcomes[|outcomes| - 1];
      Settled(outcomes[..|outcomes| - 1])
      + (match o case Received(_, m) => [m] case Refused(_) => [] case Flushed(items) => Reverse(Payloads(items)))
  }

  function Payloads<M>(items: seq<Item<M>>): (ms: seq<M>)
    ensures |ms| == |items| && forall i :: 0 <= i < |items| ==> ms[i] == items[i].data
  {
    seq(|items|, i requires 0 <= i < |items| => items[i].data)
  }

  /** Every accepted message was handed to one receiver, or thrown away by one flush, or is still in
      the list: once each, and in the order of acceptance. Only an unblocked queue refuses. */
  ghost predicate OrderOk<M>(q: Queue<M>) {
    && Payloads(q.accepted) == Settled(q.outcomes) + Reverse(Payloads(q.items))
    && (forall i :: 0 <= i < |q.outcomes| && q.outcomes[i].Refused? ==> q.unblocked)
  }

  lemma {:induction false} ReverseAppend<T>(xs: seq<T>, x: T)
    ensures Reverse(xs + [x]) == [x] + Reverse(xs)
  {
    if xs == [] {
      assert [] + [x] == [x];
    } else {
      ReverseAppend(xs[1..], x);
      assert (xs + [x])[1..] == xs[1..] + [x];
    }
  }

  lemma SettledAppend<M>(outcomes: seq<Outcome<M>>, o: Outcome<M>)
    ensures Settled(outcomes + [o]) == Settled(outcomes)
              + (match o case Received(_, m) => [m] case Refused(_) => [] case Flushed(items) => Reverse(Payloads(items)))
  {
    assert (outcomes + [o])[..|outcomes|] == outcomes;
  }

  lemma OrderOfSend<M>(q: Queue<M>, item: Item<M>, q': Queue<M>)
    requires OrderOk(q) && q'.accepted == q.accepted + [item] && q'.items == Accept(q.items, item)
    requires q'.outcomes == q.outcomes && q'.unblocked == q.unblocked
    ensures OrderOk(q')
  {
    hide Settled;
    assert Payloads(q'.items)[1..] == Payloads(q.items);
    assert Payloads(q'.accepted) == Payloads(q.accepted) + [item.data];
    var settled, r := Settled(q.outcomes), Reverse(Payloads(q.items));
    assert (settled + r) + [item.data] == settled + (r + [item.data]);
  }

  lemma OrderOfRefusal<M>(q: Queue<M>, r: nat, q': Queue<M>)
    requires OrderOk(q) && q.unblocked && q'.outcomes == q.outcomes + [Refused(r)]
    requires q'.accepted == q.accepted && q'.items == q.items && q'.unblocked
    ensures OrderOk(q')
  {
    hide Reverse, Payloads;
    SettledAppend(q.outcomes, Refused(r));
  }

  lemma OrderOfFlush<M>(q: Queue<M>, q': Queue<M>)
    requires OrderOk(q) && q'.items == [] && q'.outcomes == q.outcomes + [Flushed(q.items)]
    requires q'.accepted == q.accepted && q'.unblocked == q.unblocked
    ensures OrderOk(q')
  {
    SettledAppend(q.outcomes, Flushed(q.items));
    assert Reverse(Payloads(q'.items)) == [];
    hide Settled, Reverse, Payloads;
  }

  lemma OrderOfReceipt<M>(q: Queue<M>, r: nat, q': Queue<M>)
    requires OrderOk(q) && q.items != [] && q'.items == Rest(q.items)
    requires q'.outcomes == q.outcomes + [Received(r, Oldest(q.items).data)]
    requires q'.accepted == q.accepted && q'.unblocked == q.unblocked
    ensures OrderOk(q')
  {
    hide Settled, Reverse;
    var m := Oldest(q.items).data;
    SettledAppend(q.outcomes, Received(r, m));
    assert Payloads(q.items) == Payloads(q'.items) + [m];
    ReverseAppend(Payloads(q'.items), m);
    var settled, rest := Settled(q.outcomes), Reverse(Payloads(q'.items));
    assert settled + ([m] + rest) == (settled + [m]) + rest;
  }

  lemma OrderOfLoop<M>(q: Queue<M>, r: nat, q': Queue<M>)
    requires OrderOk(q) && r < |q.receivers| && q' == Loop(q, r)
    ensures OrderOk(q')
  {
    hide Settled, Reverse, Payloads;
    if q.items != [] {
      OrderOfReceipt(q, r, q');
    } else if q.unblocked {
      OrderOfRefusal(q, r, q');
    }
  }

  lemma OrderOfStep<M>(q: Queue<M>, e: Event<M>, q': Queue<M>)
    requires OrderOk(q) && Enabled(q, e) && q' == Apply(q, e)
    ensures OrderOk(q')
  {
    hide Settled, Reverse, Payloads;
    match e
    case Send(item, _) =>
      if !q.unblocked { OrderOfSend(q, item, q'); }
    case Enter(r) =>
      if q.unblocked { OrderOfRefusal(q, r, q'); } else { OrderOfLoop(q, r, q'); }
    case Wake(_) =>
    case Resume(r) => OrderOfLoop(q, r, q');
    case Flush => OrderOfFlush(q, q');
    case Unblock =>
  }

  // ---------- Every run ----------

  lemma {:induction false} InvariantOfRun<M>(q: Queue<M>, events: seq<Event<M>>)
    requires WakeUpsOk(q) && OrderOk(q) && IsRun(q, events)
    ensures WakeUpsOk(After(q, events)) && OrderOk(After(q, events))
    decreases |events|
  {
    if events != [] {
      var q' := Apply(q, events[0]);
      WakeUpsOfStep(q, events[0], q');
      OrderOfStep(q, events[0], q');
      InvariantOfRun(q', events[1..]);
    }
  }

  lemma InitialInvariant<M>(q: Queue<M>)
    requires Initial(q)
    ensures WakeUpsOk(q) && OrderOk(q)
  {
  }

  /** In no run is a wake-up lost: as long as somebody sleeps, the queue is not unblocked and the
      pending messages do not outnumber the receivers that were woken and will look for them. */
  lemma NoLostWakeUp<M>(q0: Queue<M>, events: seq<Event<M>>, r: nat)
    requires Initial(q0) && IsRun(q0, events) && IsIn(After(q0, events), r, Sleeping)
    ensures !After(q0, events).unblocked
    ensures |After(q0, events).items| <= WokenCount(After(q0, events).receivers)
  {
    InitialInvariant(q0);
    InvariantOfRun(q0, events);
  }

  /** In every run each accepted message leaves the queue at most once, to a receiver or a flush,
      and always in the order of acceptance; the rest is still in the list; and a receiver is
      turned away only after unblock. */
  lemma QueueConserves<M>(q0: Queue<M>, events: seq<Event<M>>)
    requires Initial(q0) && IsRun(q0, events)
    ensures var q := After(q0, events);
            && Payloads(q.accepted) == Settled(q.outcomes) + Reverse(Payloads(q.items))
            && (forall i :: 0 <= i < |q.outcomes| && q.outcomes[i].Refused? ==> q.unblocked)
  {
    InitialInvariant(q0);
    InvariantOfRun(q0, events);
  }

  /** Without a flush and with one receiver, what it was given are the first accepted messages, and
      the list holds the others: the log and the cursor of module TimerProtocol. */
  lemma LogAndCursor<M>(q0: Queue<M>, events: seq<Event<M>>)
    requires Initial(q0) && IsRun(q0, events)
    requires forall i :: 0 <= i < |After(q0, events).outcomes| ==> After(q0, events).outcomes[i].Received?
    ensures var q := After(q0, events);
            var taken := |q.outcomes|;
            && taken <= |q.accepted|
            && (forall i :: 0 <= i < taken ==> q.outcomes[i].msg == q.accepted[i].data)
            && Reverse(Payloads(q.items)) == Payloads(q.accepted)[taken..]
  {
    QueueConserves(q0, events);
    SettledOfReceived(After(q0, events).outcomes);
  }

  lemma {:induction false} SettledOfReceived<M>(outcomes: seq<Outcome<M>>)
    requires forall i :: 0 <= i < |outcomes| ==> outcomes[i].Received?
    ensures |Settled(outcomes)| == |outcomes|
    ensures forall i :: 0 <= i < |outcomes| ==> Settled(outcomes)[i] == outcomes[i].msg
  {
    if outcomes != [] {
      SettledOfReceived(outcomes[..|outcomes| - 1]);
    }
  }

  // ---------- The steps of a plain FIFO ----------

  /** The pending messages, the oldest first. */
  function Fifo<M>(q: Queue<M>): seq<M> {
    Reverse(Payloads(q.items))
  }

  /** A send appends its message and wakes one sleeper, if there is one; after unblock it does nothing. */
  lemma SendAppends<M>(q: Queue<M>, item: Item<M>, wakes: Option<nat>)
    requires Enabled(q, Send(item, wakes))
    ensures var q' := Apply(q, Send(item, wakes));
            if q.unblocked then q' == q
            else
              && Fifo(q') == Fifo(q) + [item.data] && q'.accepted == q.accepted + [item]
              && q'.outcomes == q.outcomes && !q'.unblocked
              && (if SomeSleep(q) then wakes.Some? && q'.receivers == q.receivers[wakes.value := Woken]
                  else q'.receivers == q.receivers)
  {
    if !q.unblocked {
      var items := [item] + q.items;
      assert Payloads(items)[1..] == Payloads(q.items);
    }
  }

  /** A receiver that holds the mutex in its loop gets the oldest message; if there is none it goes
      to sleep or, after unblock, is refused. One that comes only after unblock is refused at once,
      whatever is pending. */
  lemma ReceiveTakesOldest<M>(q: Queue<M>, e: Event<M>, r: nat)
    requires (e == Enter(r) || e == Resume(r)) && Enabled(q, e)
    ensures var q' := Apply(q, e);
            && |q'.receivers| == |q.receivers| && q'.accepted == q.accepted && q'.unblocked == q.unblocked
            && (forall i :: 0 <= i < |q.receivers| && i != r ==> q'.receivers[i] == q.receivers[i])
            && if q.unblocked && (e.Enter? || Fifo(q) == []) then
                 q'.outcomes == q.outcomes + [Refused(r)] && q'.receivers[r] == Away && Fifo(q') == Fifo(q)
               else if Fifo(q) == [] then
                 q'.outcomes == q.outcomes && q'.receivers[r] == Sleeping && Fifo(q') == []
               else
                 q'.outcomes == q.outcomes + [Received(r, Fifo(q)[0])] && q'.receivers[r] == Away && Fifo(q') == Fifo(q)[1..]
  {
    hide Payloads;
    if q.items != [] {
      var rest, m := Rest(q.items), Oldest(q.items).data;
      assert Payloads(q.items) == Payloads(rest) + [m];
      ReverseAppend(Payloads(rest), m);
    }
  }

  /** A flush empties the queue, and an unblock wakes all and keeps every message. */
  lemma FlushAndUnblock<M>(q: Queue<M>)
    ensures var q' := Apply(q, Flush);
            Fifo(q') == [] && q'.outcomes == q.outcomes + [Flushed(q.items)] && q'.receivers == q.receivers
            && q'.accepted == q.accepted && q'.unblocked == q.unblocked
    ensures var q' := Apply(q, Unblock);
            && q'.unblocked && Fifo(q') == Fifo(q) && q'.outcomes == q.outcomes && q'.accepted == q.accepted
            && |q'.receivers| == |q.receivers|
            && (!q.unblocked ==> forall r :: 0 <= r < |q.receivers| ==> q'.receivers[r] == if q.receivers[r] == Sleeping then Woken else q.receivers[r])
  {
  }

  /** What is sent before the first unblock. */
  function SentWhileOpen<M>(events: seq<Event<M>>): seq<Item<M>> {
    if events == [] || events[0].Unblock? then []
    else (if events[0].Send? then [events[0].item] else []) + SentWhileOpen(events[1..])
  }

  lemma HistoryOfStep<M>(q: Queue<M>, e: Event<M>, q': Queue<M>)
    requires Enabled(q, e) && q' == Apply(q, e)
    ensures q'.unblocked <==> q.unblocked || e.Unblock?
    ensures q'.accepted == q.accepted + if e.Send? && !q.unblocked then [e.item] else []
  {
  }

  lemma {:induction false} UnblockedOfRun<M>(q: Queue<M>, events: seq<Event<M>>)
    requires IsRun(q, events)
    ensures After(q, events).unblocked <==> q.unblocked || Unblock in events
    decreases |events|
  {
    hide Apply, Enabled;
    if events != [] {
      HistoryOfStep(q, events[0], Apply(q, events[0]));
      UnblockedOfRun(Apply(q, events[0]), events[1..]);
    }
  }

  lemma {:induction false} AcceptedOfRun<M>(q: Queue<M>, events: seq<Event<M>>)
    requires IsRun(q, events)
    ensures After(q, events).accepted == q.accepted + if q.unblocked then [] else SentWhileOpen(events)
    decreases |events|
  {
    hide Apply, Enabled;
    if events != [] {
      var e, rest := events[0], SentWhileOpen(events[1..]);
      HistoryOfStep(q, e, Apply(q, e));
      AcceptedOfRun(Apply(q, e), events[1..]);
      if e.Send? && !q.unblocked {
        assert (q.accepted + [e.item]) + rest == q.accepted + ([e.item] + rest);
      }
    }
  }

  /** The accepted messages are those sent before the first unblock, all of them and in that order;
      and unblock is for good: whatever happens later, nobody sleeps any more. */
  lemma UnblockIsFinal<M>(q0: Queue<M>, events: seq<Event<M>>)
    requires Initial(q0) && IsRun(q0, events)
    ensures var q := After(q0, events);
            && q.accepted == SentWhileOpen(events)
            && (q.unblocked <==> Unblock in events)
            && (Unblock in events ==> forall r :: 0 <= r < |q.receivers| ==> q.receivers[r] != Sleeping)
  {
    UnblockedOfRun(q0, events);
    AcceptedOfRun(q0, events);
    InitialInvariant(q0);
    InvariantOfRun(q0, events);
    var q := After(q0, events);
    if Unblock in events {
      forall r: nat | r < |q.receivers| ensures q.receivers[r] != Sleeping {
        assert !IsIn(q, r, Sleeping);
      }
    }
  }
}
