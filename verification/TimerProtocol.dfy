/**
  The timer service of gps/utils/LocTimer.cpp as a transition system: any number of client threads
  that start, stop and destroy timers, the message thread that owns the two heaps, the poll thread
  and the kernel timers. Each region under a client's lock is one step, each call into the kernel
  is one step, and so is each send to or receive from the message queue, so these interleave freely.

  The queue is kept as the log of all messages it ever accepted and the number already taken from
  it (module MsgQueue shows that this is what the queue does). Counters and the fields `pushAt` and
  `removeAt` record history; no step looks at them.
 */
module TimerProtocol {
  import opened Wrappers
  import opened Deadline
  import opened LocHeapSpec

  // ---------- State ----------

  // All times are nanoseconds since boot; see Deadline.OfNs.

  /** A delegate as the heap sees it: its identity and its deadline, which never changes. */
  datatype Timer = Timer(id: nat, due: nat)

  /** LocTimerDelegate::outRanks: the earlier deadline ranks higher. That the source's truncated
      rank is this comparison on every pair of deadlines is proved in module TimerTheorems. */
  const Earlier: (Timer, Timer) -> bool := (a: Timer, b: Timer) => a.due < b.due

  /** The container for timers or the one for alarms. */
  datatype Kind = Sw | Hw

  datatype Kernel = Disarmed | Armed(at: nat) | Fired

  /** A LocTimerContainer, its timerfd and whether the fd is in the epoll set. */
  datatype Container = Container(heap: Tree<Timer>, kernel: Kernel, polled: bool)

  datatype Call = AddPoll | DelPoll | SetTime(at: nat)

  datatype Msg = PushMsg(kind: Kind, id: nat) | RemoveMsg(kind: Kind, id: nat) | ExpireMsg(kind: Kind)

  /** A LocTimerDelegate. `client` is mClient; stop() sets mClient and mContainer to NULL together. */
  datatype Delegate = Delegate(owner: nat, kind: Kind, due: nat, client: Option<nat>, freed: bool,
                               pushAt: nat, removeAt: Option<nat>)

  datatype Phase = Open | Closing | Gone

  /** A LocTimer with its LocSharedLock. */
  datatype Client = Client(timer: Option<nat>, phase: Phase, lockRefs: int, lockFreed: bool,
                           starts: nat, stops: nat, callbacks: nat)

  /** The poll thread: in epoll_wait, or with events still to handle, the first of them after
      `calls` of the three calls of LocTimerContainer::expire. */
  datatype Poller = Waiting | Handling(events: seq<Kind>, calls: nat)

  datatype Stage = Popped(id: nat) | Stopping(client: nat) | Calling(client: nat) | Looping

  /** The message thread: waiting for a message; in updateSoonestTime with `calls` to go, and
      then, for a Remove message, the delegate to delete; or in the loop of an Expire message. */
  datatype Task =
    | Idle
    | Updating(kind: Kind, calls: seq<Call>, victim: Option<nat>)
    | Expiring(kind: Kind, now: nat, start: Tree<Timer>, batch: seq<Timer>, stage: Stage)

  datatype State = State(clock: nat, clients: seq<Client>, delegates: seq<Delegate>,
                         log: seq<Msg>, taken: nat, sw: Container, hw: Container,
                         poller: Poller, task: Task)
  {
    function At(k: Kind): Container {
      if k == Sw then sw else hw
    }

    function With(k: Kind, c: Container): State {
      if k == Sw then this.(sw := c) else this.(hw := c)
    }

    function Heap(k: Kind): Tree<Timer> {
      At(k).heap
    }

    function WithHeap(k: Kind, h: Tree<Timer>): State {
      With(k, At(k).(heap := h))
    }

    function TimerOf(d: nat): Timer
      requires d < |delegates|
    {
      Timer(d, delegates[d].due)
    }
  }

  const EMPTY := Container(Leaf, Disarmed, false)

  predicate Init(s: State) {
    s.clients == [] && s.delegates == [] && s.log == [] && s.taken == 0
    && s.sw == EMPTY && s.hw == EMPTY && s.poller == Waiting && s.task == Idle
    && ReadingOk(s.clock)
  }

  /** A clock early enough that no deadline computed from it reaches 2^31 seconds. */
  predicate ReadingOk(t: nat) {
    0 < t < CLOCK_LIMIT
  }

  const CLOCK_LIMIT := (INT32_LIMIT - 4294968) * NS_PER_SEC
  const DUE_LIMIT := INT32_LIMIT * NS_PER_SEC

  // ---------- Steps ----------

  datatype Event =
    | NewClient
    | Start(c: nat, timeOutInMs: nat, kind: Kind)
    | Stop(c: nat)
    | Close(c: nat)            // ~LocTimer: stop()
    | DropLock(c: nat)         // ~LocTimer: mLock->drop()
    | Tick(now: nat)
    | KernelFire(k: Kind)
    | PollWake(events: seq<Kind>)
    | PollCall                 // one call of LocTimerContainer::expire
    | Take                     // the message thread takes a message and runs it up to its first call
    | UpdateCall               // one kernel call of updateSoonestTime
    | Delete                   // delete mTimer
    | ReadClient               // LocTimerDelegate::expire reads mClient
    | StopClient               // ... and calls client->stop()
    | Callback                 // ... and client->timeOutCallback()
    | PopNext                  // popIfOutRanks

  predicate IsClient(s: State, c: nat) {
    c < |s.clients| && s.clients[c].phase == Open
  }

  /** The message thread holds a client pointer it is about to use. */
  predicate InExpire(s: State, c: nat) {
    s.task.Expiring? && (s.task.stage == Stopping(c) || s.task.stage == Calling(c))
  }

  predicate Enabled(s: State, e: Event) {
    match e
    case NewClient => true
    case Start(c, ms, _) => IsClient(s, c) && ms < UINT32_LIMIT
    case Stop(c) => IsClient(s, c)
    case Close(c) => IsClient(s, c) && !InExpire(s, c)
    case DropLock(c) => c < |s.clients| && s.clients[c].phase == Closing
    case Tick(now) => s.clock <= now && ReadingOk(now)
    case KernelFire(k) => s.At(k).kernel.Armed? && s.At(k).kernel.at <= s.clock
    case PollWake(events) =>
      && s.poller == Waiting && events != [] && |events| <= 2 && (|events| == 2 ==> events[0] != events[1])
      && forall k :: k in events ==> s.At(k).kernel == Fired && s.At(k).polled
    case PollCall => s.poller.Handling? && s.poller.events != []
    case Take => s.task == Idle && s.taken < |s.log| && KnowsTimer(s, s.log[s.taken])
    case UpdateCall => s.task.Updating? && s.task.calls != []
    case Delete => s.task.Updating? && s.task.calls == [] && s.task.victim.Some? && KnowsDelegate(s, s.task.victim.value)
    case ReadClient => s.task.Expiring? && s.task.stage.Popped? && KnowsDelegate(s, s.task.stage.id)
    case StopClient => s.task.Expiring? && s.task.stage.Stopping? && s.task.stage.client < |s.clients|
    case Callback => s.task.Expiring? && s.task.stage.Calling? && s.task.stage.client < |s.clients|
    case PopNext => s.task.Expiring? && s.task.stage.Looping?
  }

  predicate KnowsDelegate(s: State, d: nat) {
    d < |s.delegates| && s.delegates[d].owner < |s.clients|
  }

  predicate KnowsTimer(s: State, m: Msg) {
    m.ExpireMsg? || m.id < |s.delegates|
  }

  function Apply(s: State, e: Event): State
    requires Enabled(s, e)
  {
    match e
    case NewClient => s.(clients := s.clients + [Client(None, Open, 1, false, 0, 0, 0)])
    case Start(c, ms, kind) => StartTimer(s, c, ms, kind)
    case Stop(c) => StopByClient(s, c)
    case Close(c) => var s' := StopByClient(s, c); SetClient(s', c, s'.clients[c].(phase := Closing))
    case DropLock(c) => SetClient(s, c, Drop(s.clients[c]).(phase := Gone))
    case Tick(now) => s.(clock := now)
    case KernelFire(k) => s.With(k, s.At(k).(kernel := Fired))
    case PollWake(events) => s.(poller := Handling(events, 0))
    case PollCall => PollerCalls(s)
    case Take => TakeMsg(s)
    case UpdateCall =>
      var t := s.task;
      s.With(t.kind, Do(s.At(t.kind), t.calls[0])).(task := Update(t.kind, t.calls[1..], t.victim))
    case Delete => DeleteDelegate(s, s.task.victim.value)
    case ReadClient => ReadMClient(s, s.task.stage.id)
    case StopClient => StopByExpire(s, s.task.stage.client)
    case Callback =>
      var c := s.task.stage.client;
      SetClient(s, c, s.clients[c].(callbacks := s.clients[c].callbacks + 1)).(task := s.task.(stage := Looping))
    case PopNext => PopIfDue(s)
  }

  function SetClient(s: State, c: nat, client: Client): State
    requires c < |s.clients|
  {
    s.(clients := s.clients[c := client])
  }

  /** LocSharedLock::drop. */
  function Drop(c: Client): Client {
    c.(lockRefs := c.lockRefs - 1, lockFreed := c.lockFreed || c.lockRefs == 1)
  }

  /** LocTimer::start and the constructor of LocTimerDelegate. */
  function StartTimer(s: State, c: nat, ms: nat, kind: Kind): State
    requires IsClient(s, c) && ms < UINT32_LIMIT
  {
    var client := s.clients[c];
    if client.timer.Some? then s
    else
      var due := s.clock + ms * 1000000;
      var d := |s.delegates|;
      s.(delegates := s.delegates + [Delegate(c, kind, due, Some(c), false, |s.log|, None)],
         clients := s.clients[c := client.(timer := Some(d), lockRefs := client.lockRefs + 1, starts := client.starts + 1)],
         log := s.log + [PushMsg(kind, d)])
  }

  predicate HasTimer(s: State, c: nat) {
    c < |s.clients| && s.clients[c].timer.Some? && s.clients[c].timer.value < |s.delegates|
  }

  /** The body of LocTimer::stop when a timer is set, with LocTimerDelegate::destroyLocked. */
  function StopLocked(s: State, c: nat): State
    requires HasTimer(s, c)
  {
    var d := s.clients[c].timer.value;
    s.(clients := s.clients[c := s.clients[c].(timer := None)],
       delegates := s.delegates[d := s.delegates[d].(client := None, removeAt := Some(|s.log|))],
       log := s.log + [RemoveMsg(s.delegates[d].kind, d)])
  }

  function StopByClient(s: State, c: nat): (r: State)
    requires c < |s.clients|
    ensures |r.clients| == |s.clients|
  {
    if !HasTimer(s, c) then s
    else
      var s' := StopLocked(s, c);
      SetClient(s', c, s'.clients[c].(stops := s'.clients[c].stops + 1))
  }

  function ReadMClient(s: State, d: nat): State
    requires s.task.Expiring? && d < |s.delegates|
  {
    var client := s.delegates[d].client;
    s.(task := s.task.(stage := if client.Some? then Stopping(client.value) else Looping))
  }

  function StopByExpire(s: State, c: nat): State
    requires s.task.Expiring?
  {
    if !HasTimer(s, c) then s.(task := s.task.(stage := Looping))
    else StopLocked(s, c).(task := s.task.(stage := Calling(c)))
  }

  /** The effect of a kernel call. A zero time disarms; any other setting forgets an expiration. */
  function Do(c: Container, call: Call): Container {
    match call
    case AddPoll => c.(polled := true)
    case DelPoll => c.(polled := false)
    case SetTime(at) => c.(kernel := if at == 0 then Disarmed else Armed(at))
  }

  function DoAll(c: Container, calls: seq<Call>): Container
    decreases |calls|
  {
    if calls == [] then c else DoAll(Do(c, calls[0]), calls[1..])
  }

  /** LocTimerContainer::expire, run by the poll thread for each event. */
  function PollerCalls(s: State): State
    requires s.poller.Handling? && s.poller.events != []
  {
    var k := s.poller.events[0];
    if s.poller.calls == 0 then s.With(k, Do(s.At(k), SetTime(0))).(poller := s.poller.(calls := 1))
    else if s.poller.calls == 1 then s.With(k, Do(s.At(k), DelPoll)).(poller := s.poller.(calls := 2))
    else s.(log := s.log + [ExpireMsg(k)],
            poller := if |s.poller.events| == 1 then Waiting else Handling(s.poller.events[1..], 0))
  }

  /** LocTimerContainer::updateSoonestTime: the kernel calls it makes. */
  function UpdateSoonestTime(curTop: Option<Timer>, priorTop: Option<Timer>): seq<Call> {
    if curTop == priorTop then []
    else if curTop.None? then [DelPoll, SetTime(0)]
    else if priorTop.None? || Earlier(curTop.value, priorTop.value) then [AddPoll, SetTime(curTop.value.due)]
    else []
  }

  function Update(kind: Kind, calls: seq<Call>, victim: Option<nat>): Task {
    if calls == [] && victim.None? then Idle else Updating(kind, calls, victim)
  }

  function TakeMsg(s: State): State
    requires s.taken < |s.log| && KnowsTimer(s, s.log[s.taken])
  {
    var s' := s.(taken := s.taken + 1);
    match s.log[s.taken]
    case PushMsg(k, d) => RunPush(s', k, d)
    case RemoveMsg(k, d) => RunRemove(s', k, d)
    case ExpireMsg(k) => RunExpire(s', k)
  }

  function RunPush(s: State, k: Kind, d: nat): State
    requires d < |s.delegates|
  {
    var h := Push(s.Heap(k), s.TimerOf(d), Earlier);
    s.WithHeap(k, h).(task := Update(k, UpdateSoonestTime(Peek(h), Peek(s.Heap(k))), None))
  }

  function RunRemove(s: State, k: Kind, d: nat): State
    requires d < |s.delegates|
  {
    var r := Remove(s.Heap(k), s.TimerOf(d), Earlier);
    var removed := if r.Some? then Some(s.TimerOf(d)) else None;
    var h := if r.Some? then r.value else s.Heap(k);
    var calls := if Peek(s.Heap(k)) == removed then UpdateSoonestTime(Peek(h), None) else [];
    s.WithHeap(k, h).(task := Update(k, calls, Some(d)))
  }

  /** The head of the loop of MsgTimerExpire: the first pop is unconditional. */
  function RunExpire(s: State, k: Kind): State {
    var h := s.Heap(k);
    if h.Leaf? then s.(task := Update(k, UpdateSoonestTime(None, None), None))
    else s.WithHeap(k, Pop(h, Earlier)).(task := Expiring(k, s.clock, h, [h.data], Popped(h.data.id)))
  }

  function DeleteDelegate(s: State, d: nat): State
    requires KnowsDelegate(s, d)
  {
    var owner := s.delegates[d].owner;
    s.(delegates := s.delegates[d := s.delegates[d].(freed := true)],
       clients := s.clients[owner := Drop(s.clients[owner])],
       task := Idle)
  }

  /** A container after the proc() of a Push message that nothing comes between. */
  function WithTimer(c: Container, x: Timer): Container {
    var h := Push(c.heap, x, Earlier);
    DoAll(c.(heap := h), UpdateSoonestTime(Peek(h), Peek(c.heap)))
  }

  /** A container after the proc() of a Remove message that nothing comes between. */
  function WithoutTimer(c: Container, x: Timer): Container {
    var r := Remove(c.heap, x, Earlier);
    var removed, h := if r.Some? then Some(x) else None, if r.Some? then r.value else c.heap;
    DoAll(c.(heap := h), if Peek(c.heap) == removed then UpdateSoonestTime(Peek(h), None) else [])
  }

  predicate NotInFuture(t: Timer, now: nat) {
    !Earlier(Timer(0, now), t)
  }

  function PopIfDue(s: State): State
    requires s.task.Expiring?
  {
    var t := s.task;
    var h := s.Heap(t.kind);
    if h.Node? && NotInFuture(h.data, t.now)
      then s.WithHeap(t.kind, Pop(h, Earlier)).(task := t.(batch := t.batch + [h.data], stage := Popped(h.data.id)))
      else s.(task := Update(t.kind, UpdateSoonestTime(Peek(h), None), None))
  }

  // ---------- Runs ----------

  /** The states that `events` leads through from `s` all allow the next event. */
  predicate IsRun(s: State, events: seq<Event>)
    decreases |events|
  {
    events != [] ==> Enabled(s, events[0]) && IsRun(Apply(s, events[0]), events[1..])
  }

  function After(s: State, events: seq<Event>): State
    requires IsRun(s, events)
    decreases |events|
  {
    if events == [] then s else After(Apply(s, events[0]), events[1..])
  }

  lemma OneStep(s: State, e: Event, s': State, events: seq<Event>)
    requires Enabled(s, e) && s' == Apply(s, e) && IsRun(s', events)
    ensures IsRun(s, [e] + events) && After(s, [e] + events) == After(s', events)
  {
    assert ([e] + events)[1..] == events;
  }

  lemma {:induction false} RunsCompose(s: State, xs: seq<Event>, ys: seq<Event>)
    requires IsRun(s, xs) && IsRun(After(s, xs), ys)
    ensures IsRun(s, xs + ys) && After(s, xs + ys) == After(After(s, xs), ys)
    decreases |xs|
  {
    if xs == [] {
      assert xs + ys == ys;
    } else {
      RunsCompose(Apply(s, xs[0]), xs[1..], ys);
      OneStep(s, xs[0], Apply(s, xs[0]), xs[1..] + ys);
      assert [xs[0]] + (xs[1..] + ys) == xs + ys;
    }
  }

  // ---------- The heap under this ranking ----------

  lemma PushFacts(h: Tree<Timer>, x: Timer)
    requires WellFormed(h, Earlier)
    ensures WellFormed(Push(h, x, Earlier), Earlier)
    ensures Elems(Push(h, x, Earlier)) == Elems(h) + multiset{x}
    ensures Peek(Push(h, x, Earlier)) == if h.Node? && !Earlier(x, h.data) then Peek(h) else Some(x)
  {
    PushKeepsHeap(h, x, Earlier);
  }

  lemma PopFacts(h: Tree<Timer>)
    requires WellFormed(h, Earlier) && h.Node?
    ensures WellFormed(Pop(h, Earlier), Earlier)
    ensures Elems(h) == Elems(Pop(h, Earlier)) + multiset{h.data}
    ensures Nodes(Pop(h, Earlier)) == Nodes(h) - 1
  {
    PopKeepsHeap(h, Earlier);
    PopElems(h, Earlier);
  }

  lemma RemoveFacts(h: Tree<Timer>, x: Timer)
    requires WellFormed(h, Earlier)
    ensures Remove(h, x, Earlier).Some? <==> x in Elems(h)
    ensures x in Elems(h) ==>
              var r := Remove(h, x, Earlier).value;
              && WellFormed(r, Earlier)
              && Elems(h) == Elems(r) + multiset{x}
              && (Peek(h) != Some(x) ==> Peek(r) == Peek(h))
  {
    RemoveIsComplete(h, x, Earlier);
  }
}
