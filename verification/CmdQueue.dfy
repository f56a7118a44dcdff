/**
  The command queue of data-ipa-cfg-mgr/ipacm/src/IPACM_CmdQueue.cpp with the dispatcher that its
  consumer calls. Tail is never reset, so it dangles while the queue is empty.
 */
module CmdQueue {
  import opened EvtDispatcher

  datatype Event = Event(id: EventId, data: nat)

  class Message {
    const evt: Event
    var m_next: Message?

    constructor (evt: Event)
      ensures this.evt == evt && m_next == null
    {
      this.evt, m_next := evt, null;
    }
  }

  ghost function EventsOf(nodes: seq<Message>): (evts: seq<Event>)
    ensures |evts| == |nodes| && forall i :: 0 <= i < |nodes| ==> evts[i] == nodes[i].evt
  {
    seq(|nodes|, i requires 0 <= i < |nodes| => nodes[i].evt)
  }

  class MessageQueue {
    var Head: Message?
    var Tail: Message?
    ghost var nodes: seq<Message>
    ghost var freed: set<Message>  // messages deleted
    ghost var touchedFreed: bool   // set by any read or write of such a message

    /** Tail is the last node of a queue that is not empty; of an empty one it may be anything. */
    ghost predicate Valid()
      reads this, nodes
    {
      && (forall i, j :: 0 <= i < j < |nodes| ==> nodes[i] != nodes[j])
      && Head == (if nodes == [] then null else nodes[0])
      && (forall i {:trigger nodes[i].m_next} :: 0 <= i < |nodes| ==> nodes[i].m_next == if i + 1 < |nodes| then nodes[i + 1] else null)
      && (nodes != [] ==> Tail == nodes[|nodes| - 1])
      && (forall i :: 0 <= i < |nodes| ==> nodes[i] !in freed)
      && !touchedFreed
    }

    ghost function Events(): seq<Event>
      reads this
    {
      EventsOf(nodes)
    }

    constructor ()
      ensures Valid() && Events() == [] && nodes == [] && freed == {}
    {
      Head, Tail, nodes, freed, touchedFreed := null, null, [], {}, false;
    }

    /** The message must be new, as PostEvt makes it: not queued and with no next. */
    method Enqueue(item: Message)
      requires Valid() && item.m_next == null && item !in nodes && item !in freed
      modifies this, nodes
      ensures Valid() && nodes == old(nodes) + [item] && freed == old(freed) && !touchedFreed
      ensures Events() == old(Events()) + [item.evt]
    {
      if Head == null {
        Tail := item;
        Head := item;
      } else {
        if Tail == null {
          assert false;  // Head is not NULL, so Tail is the last node
        } else {
          touchedFreed := touchedFreed || Tail in freed;
          Tail.m_next := item;
        }
        Tail := item;
      }
      nodes := nodes + [item];
    }

    method Dequeue() returns (item: Message?)
      requires Valid()
      modifies this
      ensures Valid() && freed == old(freed) && !touchedFreed
      ensures item == null ==> nodes == [] && old(Events()) == []
      ensures item != null ==>
                && |nodes| == |old(nodes)| - 1 && item !in nodes && item !in freed
                && old(Events()) == [item.evt] + Events()
    {
      if Head == null {
        return null;
      }
      var tmp := Head;
      touchedFreed := touchedFreed || Head in freed;
      Head := Head.m_next;
      nodes := nodes[1..];
      return tmp;
    }

    /** PostEvt. */
    method Post(evt: Event)
      requires Valid() && forall n :: n in freed ==> allocated(n)
      modifies this, nodes
      ensures Valid() && Events() == old(Events()) + [evt] && freed == old(freed)
    {
      var item := new Message(evt);
      Enqueue(item);
    }

    /** What the consumer does with a message taken from the queue: call back, then delete. */
    method Handle(item: Message, dispatcher: Dispatcher)
      requires Valid() && dispatcher.Valid() && item !in nodes && item !in freed
      modifies this`freed, this`touchedFreed, dispatcher`delivered, dispatcher`touchedFreed
      ensures Valid() && dispatcher.Valid() && freed == old(freed) + {item} && !touchedFreed
      ensures dispatcher.delivered == old(dispatcher.delivered) + EventDeliveries(dispatcher.Registry(), item.evt)
    {
      touchedFreed := touchedFreed || item in freed;
      dispatcher.ProcessEvt(item.evt.id, item.evt.data);
      freed := freed + {item};
    }

    /** The loop of Process until it has to wait for a message. */
    method Process(dispatcher: Dispatcher)
      requires Valid() && dispatcher.Valid()
      modifies this, dispatcher`delivered, dispatcher`touchedFreed
      ensures Valid() && dispatcher.Valid() && Events() == [] && !touchedFreed
      ensures dispatcher.delivered == old(dispatcher.delivered) + AllDeliveries(dispatcher.Registry(), old(Events()))
    {
      hide EventDeliveries, AllDeliveries, EventsOf, RegsOf;
      ghost var regs, todo := dispatcher.Registry(), Events();
      ghost var target := dispatcher.delivered + AllDeliveries(regs, todo);
      var item := Dequeue();
      while item != null
        invariant Valid() && dispatcher.Valid() && dispatcher.Registry() == regs
        invariant item == null ==> nodes == [] && todo == []
        invariant item != null ==> item !in nodes && item !in freed && todo == [item.evt] + Events()
        invariant dispatcher.delivered + AllDeliveries(regs, todo) == target
        decreases |nodes|, item != null
      {
        todo := Events();
        DeliverOne(dispatcher.delivered, regs, item.evt, todo);
        Handle(item, dispatcher);
        item := Dequeue();
      }
      DeliverNone(dispatcher.delivered, regs);
    }
  }

  lemma DeliverNone(delivered: seq<Delivery>, regs: seq<Registration>)
    ensures delivered + AllDeliveries(regs, []) == delivered
  {
  }

  /** One call-back for each registration that matches, in the order of registration. */
  function EventDeliveries(regs: seq<Registration>, evt: Event): seq<Delivery> {
    Deliveries(Matching(regs, evt.id), evt.id, evt.data)
  }

  /** What delivering `evts` in turn to the registry makes. */
  function AllDeliveries(regs: seq<Registration>, evts: seq<Event>): seq<Delivery> {
    if evts == [] then []
    else EventDeliveries(regs, evts[0]) + AllDeliveries(regs, evts[1..])
  }

  lemma DeliverOne(delivered: seq<Delivery>, regs: seq<Registration>, evt: Event, evts: seq<Event>)
    ensures delivered + AllDeliveries(regs, [evt] + evts)
         == (delivered + EventDeliveries(regs, evt)) + AllDeliveries(regs, evts)
  {
    assert ([evt] + evts)[1..] == evts;
  }

  lemma DeliveriesOfFirst(objs: seq<Listener>, id: EventId, data: nat)
    requires objs != []
    ensures Deliveries(objs, id, data) == [Delivery(objs[0], id, data)] + Deliveries(objs[1..], id, data)
  {
  }

  lemma CountOfFirst<T>(all: seq<T>, x: T)
    requires all != []
    ensures multiset(all)[x] == multiset(all[1..])[x] + if all[0] == x then 1 else 0
  {
    assert all == [all[0]] + all[1..];
  }

  lemma {:induction false} DeliveriesCount(objs: seq<Listener>, id: EventId, data: nat, obj: Listener)
    ensures multiset(Deliveries(objs, id, data))[Delivery(obj, id, data)] == multiset(objs)[obj]
  {
    if objs == [] {
      assert Deliveries(objs, id, data) == [];
    } else {
      hide Deliveries;
      DeliveriesOfFirst(objs, id, data);
      DeliveriesCount(objs[1..], id, data, obj);
      CountOfFirst(objs, obj);
      var all := Deliveries(objs, id, data);
      assert all[1..] == Deliveries(objs[1..], id, data);
      CountOfFirst(all, Delivery(obj, id, data));
    }
  }

  /** An event is delivered with its own id and data, to each listener as often as it registered. */
  lemma EventDeliveriesAreExact(regs: seq<Registration>, evt: Event, obj: Listener)
    ensures forall d :: d in EventDeliveries(regs, evt) ==> d.event == evt.id && d.data == evt.data
    ensures multiset(EventDeliveries(regs, evt))[Delivery(obj, evt.id, evt.data)] == multiset(regs)[Registration(evt.id, obj)]
  {
    DeliveriesCount(Matching(regs, evt.id), evt.id, evt.data, obj);
    MatchingIsExact(regs, evt.id, obj);
  }

  // ---------- Runs ----------

  /** Registry and queue as the methods above leave them. `posted` records all events ever posted,
      `seen` the registry that each event already taken from the queue was delivered to. */
  datatype System = System(regs: seq<Registration>, queue: seq<Event>, delivered: seq<Delivery>,
                           posted: seq<Event>, seen: seq<seq<Registration>>)

  datatype Step = PostEvt(evt: Event) | Consume | Registr(reg: Registration) | Deregistr(obj: Listener)

  predicate CanStep(s: System, step: Step) {
    step == Consume ==> s.queue != []
  }

  function Next(s: System, step: Step): System
    requires CanStep(s, step)
  {
    match step
    case PostEvt(evt) => s.(queue := s.queue + [evt], posted := s.posted + [evt])
    case Consume =>
      var evt := s.queue[0];
      s.(queue := s.queue[1..], seen := s.seen + [s.regs],
         delivered := s.delivered + EventDeliveries(s.regs, evt))
    case Registr(reg) => s.(regs := s.regs + [reg])
    case Deregistr(obj) => s.(regs := Without(s.regs, obj))
  }

  predicate IsRun(s: System, steps: seq<Step>)
    decreases |steps|
  {
    steps != [] ==> CanStep(s, steps[0]) && IsRun(Next(s, steps[0]), steps[1..])
  }

  function After(s: System, steps: seq<Step>): System
    requires IsRun(s, steps)
    decreases |steps|
  {
    if steps == [] then s else After(Next(s, steps[0]), steps[1..])
  }

  /** Each event of `evts` delivered once to the matching registrations of its own registry. */
  function DeliveredTo(seen: seq<seq<Registration>>, evts: seq<Event>): seq<Delivery>
    requires |seen| == |evts|
  {
    if evts == [] then []
    else
      var n := |evts| - 1;
      DeliveredTo(seen[..n], evts[..n]) + EventDeliveries(seen[n], evts[n])
  }

  ghost predicate InOrder(s: System) {
    && |s.seen| <= |s.posted| && s.queue == s.posted[|s.seen|..]
    && s.delivered == DeliveredTo(s.seen, s.posted[..|s.seen|])
  }

  lemma InOrderOfStep(s: System, step: Step, s': System)
    requires InOrder(s) && CanStep(s, step) && s' == Next(s, step)
    ensures InOrder(s')
  {
    hide EventDeliveries;
    var n := |s.seen|;
    match step
    case PostEvt(evt) => assert s'.posted[..n] == s.posted[..n];
    case Consume =>
      assert s'.posted[..n + 1][..n] == s.posted[..n] && s'.seen[..n] == s.seen;
      assert s.queue[0] == s.posted[n];
    case _ =>
  }

  lemma {:induction false} InOrderOfRun(s: System, steps: seq<Step>)
    requires InOrder(s) && IsRun(s, steps)
    ensures InOrder(After(s, steps))
    decreases |steps|
  {
    if steps != [] {
      InOrderOfStep(s, steps[0], Next(s, steps[0]));
      InOrderOfRun(Next(s, steps[0]), steps[1..]);
    }
  }

  /** The events that the steps post. */
  function Posted(steps: seq<Step>): seq<Event> {
    if steps == [] then [] else (if steps[0].PostEvt? then [steps[0].evt] else []) + Posted(steps[1..])
  }

  function Edited(regs: seq<Registration>, step: Step): seq<Registration> {
    match step
    case Registr(reg) => regs + [reg]
    case Deregistr(obj) => Without(regs, obj)
    case _ => regs
  }

  /** The registries that the steps find when they consume an event, `regs` being the first. */
  function Found(regs: seq<Registration>, steps: seq<Step>): seq<seq<Registration>>
    decreases |steps|
  {
    if steps == [] then []
    else (if steps[0].Consume? then [regs] else []) + Found(Edited(regs, steps[0]), steps[1..])
  }

  lemma HistoryOfStep(s: System, step: Step, s': System)
    requires CanStep(s, step) && s' == Next(s, step)
    ensures s'.posted == s.posted + (if step.PostEvt? then [step.evt] else [])
    ensures s'.seen == s.seen + (if step.Consume? then [s.regs] else [])
    ensures s'.regs == Edited(s.regs, step)
  {
    hide EventDeliveries, Without;
  }

  lemma {:induction false} HistoryOfRun(s: System, steps: seq<Step>)
    requires IsRun(s, steps)
    ensures After(s, steps).posted == s.posted + Posted(steps)
    ensures After(s, steps).seen == s.seen + Found(s.regs, steps)
    decreases |steps|
  {
    hide Next, CanStep, Edited;
    if steps != [] {
      var s1 := Next(s, steps[0]);
      HistoryOfStep(s, steps[0], s1);
      HistoryOfRun(s1, steps[1..]);
    }
  }

  /** In every run from the start, events leave the queue in the order in which they were posted, and
      each that has left it was delivered once to each registration that matched it at that time, in
      the order of registration, and to nobody else. */
  lemma EventsInOrder(steps: seq<Step>)
    requires IsRun(System([], [], [], [], []), steps)
    ensures var s := After(System([], [], [], [], []), steps);
            && s.posted == Posted(steps) && s.seen == Found([], steps)
            && |s.seen| <= |s.posted| && s.queue == s.posted[|s.seen|..]
            && s.delivered == DeliveredTo(s.seen, s.posted[..|s.seen|])
  {
    InOrderOfRun(System([], [], [], [], []), steps);
    HistoryOfRun(System([], [], [], [], []), steps);
  }
}
