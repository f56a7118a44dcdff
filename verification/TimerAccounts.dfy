/**
  What is conserved: starts against stops and callbacks, references to the shared lock against the
  objects that hold one, and the heap at the start of an Expire message against the timers popped.
 */
module TimerAccounts {
  import opened Deadline
  import opened LocHeapSpec
  import opened TimerProtocol
  import opened TimerLifetime

  // ---------- Starts, stops and callbacks ----------

  ghost predicate CountsOk(s: State, c: nat)
    requires c < |s.clients|
  {
    var client := s.clients[c];
    client.starts == client.stops + client.callbacks
                     + (if s.task.Expiring? && s.task.stage == Calling(c) then 1 else 0)
                     + (if client.timer.Some? then 1 else 0)
  }

  lemma CountsOfStop(s: State, e: Event, c: nat, s': State)
    requires e.Stop? || e.Close? || e == StopClient
    requires TaskOk(s) && Enabled(s, e) && s' == Apply(s, e) && c < |s'.clients|
    requires c < |s.clients| ==> ClientOk(s, c) && CountsOk(s, c)
    ensures CountsOk(s', c)
  {
    hide Push, Pop, Remove, Do, UpdateSoonestTime, NotInFuture;
  }

  lemma CountsOfMessageStep(s: State, e: Event, c: nat, s': State)
    requires e == Take || e == UpdateCall || e == Delete || e == ReadClient || e == Callback || e == PopNext
    requires TaskOk(s) && Enabled(s, e) && s' == Apply(s, e) && c < |s'.clients|
    requires c < |s.clients| ==> ClientOk(s, c) && CountsOk(s, c)
    ensures CountsOk(s', c)
  {
    hide Push, Pop, Remove, Do, UpdateSoonestTime, NotInFuture;
  }

  lemma CountsOfOtherStep(s: State, e: Event, c: nat, s': State)
    requires e.NewClient? || e.Start? || e.DropLock? || e.Tick? || e.KernelFire? || e.PollWake? || e == PollCall
    requires TaskOk(s) && Enabled(s, e) && s' == Apply(s, e) && c < |s'.clients|
    requires c < |s.clients| ==> ClientOk(s, c) && CountsOk(s, c)
    ensures CountsOk(s', c)
  {
    hide Push, Pop, Remove, Do, UpdateSoonestTime, NotInFuture;
  }

  lemma CountsOfStep(s: State, e: Event, c: nat, s': State)
    requires TaskOk(s) && Enabled(s, e) && s' == Apply(s, e) && c < |s'.clients|
    requires c < |s.clients| ==> ClientOk(s, c) && CountsOk(s, c)
    ensures CountsOk(s', c)
  {
    hide TaskOk, Enabled, Apply, ClientOk, CountsOk;
    if e.Stop? || e.Close? || e == StopClient {
      CountsOfStop(s, e, c, s');
    } else if e.NewClient? || e.Start? || e.DropLock? || e.Tick? || e.KernelFire? || e.PollWake? || e == PollCall {
      CountsOfOtherStep(s, e, c, s');
    } else {
      CountsOfMessageStep(s, e, c, s');
    }
  }

  // ---------- References to the shared lock ----------

  /** The number of delegates of client `c` that have not been freed. */
  ghost function LiveOf(ds: seq<Delegate>, c: nat): nat {
    if ds == [] then 0
    else LiveOf(ds[..|ds| - 1], c) + (if ds[|ds| - 1].owner == c && !ds[|ds| - 1].freed then 1 else 0)
  }

  lemma LiveOfAppend(ds: seq<Delegate>, d: Delegate, c: nat)
    ensures LiveOf(ds + [d], c) == LiveOf(ds, c) + (if d.owner == c && !d.freed then 1 else 0)
  {
    assert (ds + [d])[..|ds|] == ds;
  }

  lemma {:induction false} LiveOfUpdate(ds: seq<Delegate>, i: nat, d: Delegate, c: nat)
    requires i < |ds| && d.owner == ds[i].owner
    ensures LiveOf(ds[i := d], c) == LiveOf(ds, c)
              - (if ds[i].owner == c && !ds[i].freed then 1 else 0) + (if d.owner == c && !d.freed then 1 else 0)
  {
    var n := |ds| - 1;
    if i == n {
      assert ds[i := d][..n] == ds[..n];
    } else {
      assert ds[i := d][..n] == ds[..n][i := d];
      LiveOfUpdate(ds[..n], i, d, c);
    }
  }

  lemma {:induction false} NoneLive(ds: seq<Delegate>, c: nat)
    requires forall i: nat :: i < |ds| ==> ds[i].owner < c
    ensures LiveOf(ds, c) == 0
  {
    if ds != [] {
      NoneLive(ds[..|ds| - 1], c);
    }
  }

  /** The lock counts the LocTimer and its live delegates and is gone when the last of them is. */
  ghost predicate LockOk(s: State, c: nat)
    requires c < |s.clients|
  {
    var client := s.clients[c];
    && client.lockRefs == (if client.phase == Gone then 0 else 1) + LiveOf(s.delegates, c)
    && (client.lockFreed <==> client.lockRefs == 0)
  }

  ghost predicate LocksOk(s: State) {
    forall c: nat :: c < |s.clients| ==> LockOk(s, c)
  }

  lemma LocksOfStart(s: State, c: nat, ms: nat, kind: Kind, s': State)
    requires LocksOk(s) && IsClient(s, c) && ms < UINT32_LIMIT && s' == StartTimer(s, c, ms, kind)
    ensures LocksOk(s')
  {
    forall k: nat | k < |s'.clients| ensures LockOk(s', k) {
      assert LockOk(s, k);
      if s' != s {
        LiveOfAppend(s.delegates, s'.delegates[|s.delegates|], k);
        assert s'.delegates == s.delegates + [s'.delegates[|s.delegates|]];
      }
    }
  }

  lemma LocksOfStop(s: State, c: nat, s': State)
    requires LocksOk(s) && HasTimer(s, c) && s' == StopLocked(s, c)
    ensures LocksOk(s')
  {
    var d := s.clients[c].timer.value;
    forall k: nat | k < |s'.clients| ensures LockOk(s', k) {
      assert LockOk(s, k);
      LiveOfUpdate(s.delegates, d, s'.delegates[d], k);
    }
  }

  lemma LocksOfDelete(s: State, d: nat, s': State)
    requires LocksOk(s) && KnowsDelegate(s, d) && !s.delegates[d].freed && s' == DeleteDelegate(s, d)
    ensures LocksOk(s')
  {
    forall k: nat | k < |s'.clients| ensures LockOk(s', k) {
      assert LockOk(s, k);
      LiveOfUpdate(s.delegates, d, s'.delegates[d], k);
    }
  }

  /** A step that leaves the delegates alone, and of the clients at most counters. */
  lemma LocksOfOtherStep(s: State, s': State)
    requires LocksOk(s) && s'.delegates == s.delegates && |s'.clients| == |s.clients|
    requires forall c: nat {:trigger s'.clients[c]} :: c < |s.clients| ==>
               && s'.clients[c].lockRefs == s.clients[c].lockRefs && s'.clients[c].lockFreed == s.clients[c].lockFreed
               && (s'.clients[c].phase == Gone <==> s.clients[c].phase == Gone)
    ensures LocksOk(s')
  {
    forall c: nat | c < |s'.clients| ensures LockOk(s', c) {
      assert LockOk(s, c);
    }
  }

  lemma LocksOfDropLock(s: State, c: nat, s': State)
    requires LocksOk(s) && Enabled(s, DropLock(c)) && s' == Apply(s, DropLock(c))
    ensures LocksOk(s')
  {
    forall k: nat | k < |s'.clients| ensures LockOk(s', k) {
      assert LockOk(s, k);
    }
  }

  lemma LocksOfNewClient(s: State, s': State)
    requires LocksOk(s) && s' == Apply(s, NewClient)
    requires forall d: nat :: d < |s.delegates| ==> s.delegates[d].owner < |s.clients|
    ensures LocksOk(s')
  {
    forall c: nat | c < |s'.clients| ensures LockOk(s', c) {
      if c < |s.clients| { assert LockOk(s, c); } else { NoneLive(s.delegates, c); }
    }
  }

  lemma LocksOfStopByClient(s: State, c: nat, s': State)
    requires LocksOk(s) && c < |s.clients| && s' == StopByClient(s, c)
    ensures LocksOk(s')
  {
    if HasTimer(s, c) {
      LocksOfStop(s, c, StopLocked(s, c));
      LocksOfOtherStep(StopLocked(s, c), s');
    }
  }

  lemma LocksOfStep(s: State, e: Event, s': State)
    requires Life(s) && LocksOk(s) && Enabled(s, e) && s' == Apply(s, e)
    ensures LocksOk(s')
  {
    hide Push, Pop, Remove, Do, UpdateSoonestTime, WellFormed, Elems, LockOk, LiveOf, LocksOk, HeapOk, Tracked, MsgOk;
    match e
    case NewClient =>
      forall d: nat | d < |s.delegates| ensures s.delegates[d].owner < |s.clients| {
        assert DelegateOk(s, d);
      }
      LocksOfNewClient(s, s');
    case Start(c, ms, kind) => LocksOfStart(s, c, ms, kind, s');
    case Stop(c) => LocksOfStopByClient(s, c, s');
    case Close(c) =>
      var s1 := StopByClient(s, c);
      LocksOfStopByClient(s, c, s1);
      LifeOfStopByClient(s, c, s1);
      LocksOfOtherStep(s1, s');
    case DropLock(c) => LocksOfDropLock(s, c, s');
    case Delete =>
      assert DelegateOk(s, s.task.victim.value);
      LocksOfDelete(s, s.task.victim.value, s');
    case StopClient =>
      var c := s.task.stage.client;
      if HasTimer(s, c) {
        LocksOfStop(s, c, StopLocked(s, c));
        LocksOfOtherStep(StopLocked(s, c), s');
      } else {
        LocksOfOtherStep(s, s');
      }
    case _ => LocksOfOtherStep(s, s');
  }

  // ---------- One Expire message ----------

  /** The pops that popIfOutRanks makes on its own from `h`, and the heap they leave. */
  function DuePops(h: Tree<Timer>, now: nat): (seq<Timer>, Tree<Timer>)
    decreases Nodes(h)
  {
    if h.Leaf? || !NotInFuture(h.data, now) then ([], h)
    else
      PopElems(h, Earlier);
      var (rest, left) := DuePops(Pop(h, Earlier), now);
      ([h.data] + rest, left)
  }

  /** The pops of the whole loop: the first without looking, the others if due. */
  function ExpiryPops(h: Tree<Timer>, now: nat): (seq<Timer>, Tree<Timer>) {
    if h.Leaf? then ([], h)
    else
      var (rest, left) := DuePops(Pop(h, Earlier), now);
      ([h.data] + rest, left)
  }

  /** However other threads interleave, the timers popped so far and those that DuePops would pop
      next are those of one undisturbed run of the loop. */
  ghost predicate BatchOk(s: State) {
    s.task.Expiring? ==>
      && s.task.start.Node? && WellFormed(s.task.start, Earlier)
      && ExpiryPops(s.task.start, s.task.now)
         == (s.task.batch + DuePops(s.Heap(s.task.kind), s.task.now).0, DuePops(s.Heap(s.task.kind), s.task.now).1)
  }

  lemma BatchOfPopNext(s: State, s': State)
    requires BatchOk(s) && Enabled(s, PopNext) && s' == PopIfDue(s)
    ensures BatchOk(s')
  {
    var h, now := s.Heap(s.task.kind), s.task.now;
    if h.Node? && NotInFuture(h.data, now) {
      var rest := DuePops(Pop(h, Earlier), now);
      assert DuePops(h, now) == ([h.data] + rest.0, rest.1);
      assert s.task.batch + ([h.data] + rest.0) == (s.task.batch + [h.data]) + rest.0;
    }
  }

  lemma BatchOfTake(s: State, s': State)
    requires Life(s) && Enabled(s, Take) && s' == TakeMsg(s)
    ensures BatchOk(s')
  {
    if s.log[s.taken].ExpireMsg? {
      assert HeapOk(s, s.log[s.taken].kind);
    }
  }

  lemma BatchOfStep(s: State, e: Event, s': State)
    requires Life(s) && BatchOk(s) && Enabled(s, e) && s' == Apply(s, e)
    ensures BatchOk(s')
  {
    hide Push, Pop, Remove, UpdateSoonestTime, Life, DuePops, WellFormed;
    match e
    case PopNext => BatchOfPopNext(s, s');
    case Take => BatchOfTake(s, s');
    case _ =>
  }

  /** The last timer popped is the one whose expire() is under way. */
  ghost predicate HeldOk(s: State) {
    s.task.Expiring? ==>
      && s.task.now <= s.clock && s.task.batch != []
      && var x := s.task.batch[|s.task.batch| - 1];
      && x.id < |s.delegates| && x == s.TimerOf(x.id)
      && (s.task.stage.Popped? ==> s.task.stage.id == x.id)
      && (s.task.stage.Stopping? ==> s.task.stage.client == s.delegates[x.id].owner)
  }

  lemma HeldOfStep(s: State, e: Event, s': State)
    requires Life(s) && HeldOk(s) && Enabled(s, e) && s' == Apply(s, e)
    ensures HeldOk(s')
  {
    match e
    case Take => HeldOfTake(s, s');
    case PopNext => HeldOfPop(s, s.task.kind);
    case ReadClient => assert DelegateOk(s, s.task.stage.id);
    case _ => HeldOfOtherStep(s, e, s');
  }

  lemma HeldOfTake(s: State, s': State)
    requires Life(s) && Enabled(s, Take) && s' == TakeMsg(s)
    ensures HeldOk(s')
  {
    if s.log[s.taken].ExpireMsg? { HeldOfPop(s, s.log[s.taken].kind); }
  }

  lemma HeldOfOtherStep(s: State, e: Event, s': State)
    requires HeldOk(s) && Enabled(s, e) && s' == Apply(s, e)
    requires !e.Take? && !e.PopNext? && !e.ReadClient?
    ensures HeldOk(s')
  {
  }

  lemma HeldOfPop(s: State, k: Kind)
    requires Life(s)
    ensures s.Heap(k).Node? ==> s.Heap(k).data.id < |s.delegates| && s.Heap(k).data == s.TimerOf(s.Heap(k).data.id)
  {
    assert HeapOk(s, k);
    if s.Heap(k).Node? {
      assert s.Heap(k).data in Elems(s.Heap(k));
      assert InHeapOk(s, k, s.Heap(k).data);
    }
  }

  lemma {:induction false} DuePopsConserve(h: Tree<Timer>, now: nat)
    requires WellFormed(h, Earlier)
    ensures Elems(h) == multiset(DuePops(h, now).0) + Elems(DuePops(h, now).1)
    ensures WellFormed(DuePops(h, now).1, Earlier)
    decreases Nodes(h)
  {
    if h.Node? && NotInFuture(h.data, now) {
      PopFacts(h);
      DuePopsConserve(Pop(h, Earlier), now);
    }
  }

  lemma TopIsSoonest(h: Tree<Timer>, x: Timer)
    requires WellFormed(h, Earlier) && x in Elems(h)
    ensures h.Node? && h.data.due <= x.due
  {
    TopIsMaximal(h, x, Earlier);
  }

  lemma {:induction false} DuePopsLeaveFuture(h: Tree<Timer>, now: nat, x: Timer)
    requires WellFormed(h, Earlier) && x in Elems(DuePops(h, now).1)
    ensures now < x.due
    decreases Nodes(h)
  {
    if h.Node? && NotInFuture(h.data, now) {
      PopFacts(h);
      DuePopsLeaveFuture(Pop(h, Earlier), now, x);
    } else {
      TopIsSoonest(h, x);
    }
  }

  /** The timers of a sequence are at or after `from`, at or before `now`, and in order. */
  ghost predicate InOrder(xs: seq<Timer>, from: nat, now: nat) {
    && (forall i :: 0 <= i < |xs| ==> from <= xs[i].due <= now)
    && (forall i, j :: 0 <= i < j < |xs| ==> xs[i].due <= xs[j].due)
  }

  lemma NextIsNoSooner(h: Tree<Timer>)
    requires WellFormed(h, Earlier) && h.Node?
    ensures var below := Pop(h, Earlier); below.Node? ==> h.data.due <= below.data.due
  {
    hide WellFormed, Pop;
    PopFacts(h);
    var below := Pop(h, Earlier);
    if below.Node? {
      assert below.data in Elems(below);
      TopIsSoonest(h, below.data);
    }
  }

  lemma {:induction false} DuePopsInOrder(h: Tree<Timer>, from: nat, now: nat)
    requires WellFormed(h, Earlier) && (h.Node? ==> from <= h.data.due)
    ensures InOrder(DuePops(h, now).0, from, now)
    decreases Nodes(h)
  {
    hide WellFormed, Elems, Pop, Nodes;
    if h.Node? && NotInFuture(h.data, now) {
      PopFacts(h);
      NextIsNoSooner(h);
      DuePopsInOrder(Pop(h, Earlier), h.data.due, now);
    }
  }

  /** One Expire message, on any heap: nothing is lost, the timers left are strictly in the future
      and those popped after the first were due, in order of their deadlines. */
  lemma ExpiryPopsConserve(h: Tree<Timer>, now: nat)
    requires WellFormed(h, Earlier) && h.Node?
    ensures var (popped, left) := ExpiryPops(h, now);
            && Elems(h) == multiset(popped) + Elems(left)
            && (forall x :: x in Elems(left) ==> now < x.due)
            && popped != [] && popped[0] == h.data
            && InOrder(popped[1..], h.data.due, now)
  {
    hide WellFormed, Elems, Pop, Nodes, DuePops;
    PopFacts(h);
    var below := Pop(h, Earlier);
    var (rest, left) := DuePops(below, now);
    DuePopsConserve(below, now);
    NextIsNoSooner(h);
    DuePopsInOrder(below, h.data.due, now);
    forall x | x in Elems(left) ensures now < x.due {
      DuePopsLeaveFuture(below, now, x);
    }
    assert ExpiryPops(h, now).0[1..] == rest;
    assert multiset([h.data] + rest) == multiset{h.data} + multiset(rest);
  }

  /** All the timers popped by an Expire message are due if and only if the top was due when it was
      taken. */
  lemma ExpiryPopsDue(h: Tree<Timer>, now: nat)
    requires WellFormed(h, Earlier) && h.Node?
    ensures h.data.due <= now <==> forall x :: x in ExpiryPops(h, now).0 ==> x.due <= now
  {
    ExpiryPopsConserve(h, now);
    var popped := ExpiryPops(h, now).0;
    assert popped[0] in popped;
    forall x | x in popped && x != h.data ensures x.due <= now {
      assert popped == [popped[0]] + popped[1..];
      assert x in popped[1..];
    }
  }

  /** If the top was due, the timers popped are exactly the due ones. */
  lemma ExpiryPopsExact(h: Tree<Timer>, now: nat, x: Timer)
    requires WellFormed(h, Earlier) && h.Node? && h.data.due <= now
    ensures multiset(ExpiryPops(h, now).0)[x] == if x.due <= now then Elems(h)[x] else 0
  {
    ExpiryPopsConserve(h, now);
    ExpiryPopsDue(h, now);
    var (popped, left) := ExpiryPops(h, now);
    assert x in multiset(popped) ==> x in popped;
  }
}
