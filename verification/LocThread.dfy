/**
  The delegate of a LocThread (gps/utils/LocThread.cpp) and its two owners: the parent, which
  creates it and then stops it or says goodbye, and the spawned thread. Each access to the fields
  of the delegate, each region under its mutex and each call on the runnable is one step.
 */
module LocThread {
  /** `refCount` is mRefCount and `runnable` says that mRunnable is not NULL. */
  datatype Delegate = Delegate(runnable: bool, joinable: bool, refCount: int, deleted: nat)

  /** Where a thread is in destroy(). */
  datatype Destroy = Check | Decrement | Delete

  datatype Parent =
    | Creating                  // in the constructor, before the thread is created
    | Failing(todo: nat)        // creation failed: mRunnable, mJoinable and mRefCount still to set
    | Created                   // in the constructor after creation, then in create()
    | Holding                   // start() returned true
    | StopRead | StopClear      // stop(): if (mRunnable) mRunnable = NULL
    | JoinRead | JoinClear | Join  // stop(): if (mJoinable) { mJoinable = false; join }
    | Bye                       // bye() of a LocThread that goes away
    | Destroying(at: Destroy, giveUp: bool)  // destroy(), from create() if giveUp
    | Finished(started: bool)   // start() returned false, or the handle was given up later

  datatype Child =
    | NotBorn
    | Born                      // threadMain before it reads mRunnable
    | Prerun | Loop | Running | Postrun  // isRunning() tests, and run()
    | ClearRunnable | DeleteRunnable
    | Dying(at: Destroy)
    | Dead

  /** `touchedAfterDelete` is set by any access to a deleted delegate; `ran` and `runnableDeleted`
      record whether the thread took the runnable over and how often it deleted it. */
  datatype State = State(d: Delegate, parent: Parent, child: Child, wantJoinable: bool,
                         touchedAfterDelete: bool, ran: bool, runnableDeleted: nat)

  predicate Init(s: State) {
    s.parent == Creating && s.child == NotBorn && !s.touchedAfterDelete && !s.ran && s.runnableDeleted == 0
    && s.d == Delegate(true, s.wantJoinable, 2, 0)
  }

  datatype Event =
    | Spawn(ok: bool)
    | ParentStep
    | Stop                      // LocThread::stop
    | Leave                     // ~LocThread
    | ChildStep(again: bool)    // `again` is what run() returns

  /** An access to the delegate. */
  function Touch(s: State): State {
    s.(touchedAfterDelete := s.touchedAfterDelete || s.d.deleted > 0)
  }

  predicate Enabled(s: State, e: Event) {
    match e
    case Spawn(_) => s.parent == Creating
    case ParentStep =>
      !s.parent.Creating? && !s.parent.Holding? && !s.parent.Finished?
      && (s.parent == Join ==> s.child == Dead)
    case Stop => s.parent == Holding
    case Leave => s.parent == Holding
    case ChildStep(_) => s.child != NotBorn && s.child != Dead
  }

  function Apply(s: State, e: Event): State
    requires Enabled(s, e)
  {
    match e
    case Spawn(ok) => if ok then s.(parent := Created, child := Born) else s.(parent := Failing(0))
    case ParentStep => ParentGoes(s)
    case Stop => s.(parent := StopRead)
    case Leave => s.(parent := Bye)
    case ChildStep(again) => ChildGoes(s, again)
  }

  function ParentGoes(s: State): State
    requires Enabled(s, ParentStep)
  {
    var t := Touch(s);
    match s.parent
    case Failing(todo) =>
      if todo == 0 then t.(d := t.d.(runnable := false), parent := Failing(1))
      else if todo == 1 then t.(d := t.d.(joinable := false), parent := Failing(2))
      else t.(d := t.d.(refCount := 1), parent := Created)
    case Created => if s.d.runnable then t.(parent := Holding) else t.(parent := Destroying(Check, true))
    case StopRead => t.(parent := if s.d.runnable then StopClear else JoinRead)
    case StopClear => t.(d := t.d.(runnable := false), parent := JoinRead)
    case JoinRead => t.(parent := if s.d.joinable then JoinClear else Destroying(Check, false))
    case JoinClear => t.(d := t.d.(joinable := false), parent := Join)
    case Join => t.(parent := Destroying(Check, false))
    case Bye => t.(parent := if s.d.joinable then StopRead else Destroying(Check, false))
    case Destroying(at, giveUp) =>
      (match at
       case Check => t.(parent := if s.d.refCount > 0 then Destroying(Decrement, giveUp) else Finished(!giveUp))
       case Decrement =>
         t.(d := t.d.(refCount := t.d.refCount - 1),
            parent := if s.d.refCount == 1 then Destroying(Delete, giveUp) else Finished(!giveUp))
       case Delete => t.(d := t.d.(deleted := t.d.deleted + 1), parent := Finished(!giveUp)))
  }

  function ChildGoes(s: State, again: bool): State
    requires s.child != NotBorn && s.child != Dead
  {
    var t := Touch(s);
    match s.child
    case Born => t.(child := if s.d.runnable then Prerun else Dying(Check), ran := s.d.runnable)
    case Prerun => t.(child := Loop)
    case Loop => t.(child := if s.d.runnable then Running else Postrun)
    case Running => s.(child := if again then Loop else Postrun)
    case Postrun => t.(child := ClearRunnable)
    case ClearRunnable => t.(d := t.d.(runnable := false), child := DeleteRunnable)
    case DeleteRunnable => s.(runnableDeleted := s.runnableDeleted + 1, child := Dying(Check))
    case Dying(at) =>
      match at
      case Check => t.(child := if s.d.refCount > 0 then Dying(Decrement) else Dead)
      case Decrement =>
        t.(d := t.d.(refCount := t.d.refCount - 1), child := if s.d.refCount == 1 then Dying(Delete) else Dead)
      case Delete => t.(d := t.d.(deleted := t.d.deleted + 1), child := Dead)
  }

  predicate IsRun(s: State, events: seq<Event>)
    decreases |events|
  {
    events != [] ==> Enabled(s, events[0]) && IsRun(Apply(s, events[0]), events[1..])
  }

  function After(s: State, events: seq<Event>): State
    requires IsRun(s, events)
    decreases |events|
  {
    if events == [] then s else After(Apply(s, events[0]), events[1..])
  }

  // ---------- Who owns the delegate ----------

  /** The parent has not yet given its reference up. */
  predicate ParentOwns(s: State) {
    !s.parent.Finished? && !(s.parent.Destroying? && s.parent.at == Delete)
  }

  predicate ChildOwns(s: State) {
    s.child != NotBorn && s.child != Dead && s.child != Dying(Delete)
  }

  /** One of the two has taken the count to zero and is about to delete. */
  predicate Deleting(s: State) {
    (s.parent.Destroying? && s.parent.at == Delete) || s.child == Dying(Delete)
  }

  function One(b: bool): int {
    if b then 1 else 0
  }

  predicate HasRunnable(c: Child) {
    c.Prerun? || c.Loop? || c.Running? || c.Postrun? || c.ClearRunnable? || c.DeleteRunnable?
  }

  /** The thread was not created, yet or at all. */
  predicate Unborn(s: State) {
    s.parent == Creating || s.parent.Failing?
  }

  predicate GivesUp(s: State) {
    (s.parent.Destroying? && s.parent.giveUp) || s.parent == Finished(false)
  }

  /** mRefCount counts the owners, the last of whom deletes the delegate, once; and until then
      nobody has touched a deleted one. */
  ghost predicate Ownership(s: State) {
    && !s.touchedAfterDelete
    && (Unborn(s) ==> s.child == NotBorn && s.d.deleted == 0)
    && (!Unborn(s) ==>
          && s.d.refCount == One(ParentOwns(s)) + One(ChildOwns(s))
          && (Deleting(s) ==> s.d.refCount == 0)
          && !(s.child == Dying(Delete) && s.parent.Destroying? && s.parent.at == Delete)
          && s.d.deleted == One(s.d.refCount == 0 && !Deleting(s)))
    && (s.parent == Creating ==> s.d.refCount == 2)
    && (s.child == NotBorn && !Unborn(s) ==> s.parent == Created || GivesUp(s))
    && (s.child == NotBorn && (s.parent == Created || (s.parent.Failing? && s.parent.todo >= 1)) ==> !s.d.runnable)
  }

  /** The runnable is deleted by the thread, once, if and only if the thread took it over; and
      start() fails after a successful creation only if the thread has taken it over. */
  ghost predicate Runnables(s: State) {
    && (HasRunnable(s.child) ==> s.ran)
    && s.runnableDeleted == One(s.ran && !HasRunnable(s.child))
    && (s.child == NotBorn || s.child == Born ==> !s.ran)
    && (Unborn(s) ==> s.child == NotBorn)
    && (s.parent == Creating ==> s.d.runnable)
    && (s.parent == Created && s.child != NotBorn && !s.d.runnable ==> s.ran)
    && (GivesUp(s) && s.child != NotBorn ==> s.ran)
    && (s.child != NotBorn && s.child != Born && !s.ran ==> !s.d.runnable)
    && (s.parent == Holding || s.parent == Created ==> s.child == Born ==> s.d.runnable)
  }

  /** After stop(), or the goodbye of a LocThread, a joinable thread has finished before the parent
      gives up its reference. */
  ghost predicate Joins(s: State) {
    && (Unborn(s) ==> s.child == NotBorn)
    && (s.parent == Creating || (s.parent == Created && s.child != NotBorn) ==> s.d.joinable == s.wantJoinable)
    && (s.parent == Created && s.child == NotBorn ==> !s.d.runnable)
    && (s.parent.Failing? && s.parent.todo >= 1 ==> !s.d.runnable)
    && (s.wantJoinable ==>
          && (s.parent == Holding || s.parent == Bye || s.parent == StopRead || s.parent == StopClear || s.parent == JoinRead ==> s.d.joinable)
          && ((s.parent.Destroying? && !s.parent.giveUp) || s.parent == Finished(true) ==> s.child == Dead))
  }

  /** Past the first half of stop(), isRunning() is false. */
  predicate Stopped(s: State) {
    s.parent == JoinRead || s.parent == JoinClear || s.parent == Join ==> !s.d.runnable
  }

  ghost predicate Inv(s: State) {
    Ownership(s) && Runnables(s) && Joins(s) && Stopped(s)
  }

  lemma OwnershipOfParent(s: State, s': State)
    requires Ownership(s) && Enabled(s, ParentStep) && s' == ParentGoes(s)
    ensures Ownership(s')
  {
  }

  lemma OwnershipOfChild(s: State, again: bool, s': State)
    requires Ownership(s) && Enabled(s, ChildStep(again)) && s' == ChildGoes(s, again)
    ensures Ownership(s')
  {
  }

  lemma RunnablesOfParent(s: State, s': State)
    requires Runnables(s) && Enabled(s, ParentStep) && s' == ParentGoes(s)
    ensures Runnables(s')
  {
  }

  lemma RunnablesOfChild(s: State, again: bool, s': State)
    requires Runnables(s) && Enabled(s, ChildStep(again)) && s' == ChildGoes(s, again)
    ensures Runnables(s')
  {
  }

  lemma JoinsOfParent(s: State, s': State)
    requires Joins(s) && Enabled(s, ParentStep) && s' == ParentGoes(s)
    ensures Joins(s')
  {
  }

  lemma JoinsOfChild(s: State, again: bool, s': State)
    requires Joins(s) && Enabled(s, ChildStep(again)) && s' == ChildGoes(s, again)
    ensures Joins(s')
  {
  }

  lemma StoppedOfStep(s: State, e: Event, s': State)
    requires Stopped(s) && Enabled(s, e) && s' == Apply(s, e)
    ensures Stopped(s')
  {
  }

  lemma InvOfOtherStep(s: State, e: Event, s': State)
    requires Ownership(s) && Runnables(s) && Joins(s) && Enabled(s, e) && s' == Apply(s, e)
    requires e != ParentStep && !e.ChildStep?
    ensures Ownership(s') && Runnables(s') && Joins(s')
  {
  }

  lemma InvOfStep(s: State, e: Event, s': State)
    requires Inv(s) && Enabled(s, e) && s' == Apply(s, e)
    ensures Inv(s')
  {
    hide ParentGoes, ChildGoes, Ownership, Runnables, Joins, Stopped;
    StoppedOfStep(s, e, s');
    match e
    case ParentStep =>
      OwnershipOfParent(s, s');
      RunnablesOfParent(s, s');
      JoinsOfParent(s, s');
    case ChildStep(again) =>
      OwnershipOfChild(s, again, s');
      RunnablesOfChild(s, again, s');
      JoinsOfChild(s, again, s');
    case _ => InvOfOtherStep(s, e, s');
  }

  lemma {:induction false} InvOfRun(s: State, events: seq<Event>)
    requires Inv(s) && IsRun(s, events)
    ensures Inv(After(s, events))
    decreases |events|
  {
    if events != [] {
      InvOfStep(s, events[0], Apply(s, events[0]));
      InvOfRun(Apply(s, events[0]), events[1..]);
    }
  }

  ghost predicate Reachable(s: State) {
    exists s0: State, events: seq<Event> :: Init(s0) && IsRun(s0, events) && After(s0, events) == s
  }

  lemma ReachableInv(s: State)
    requires Reachable(s)
    ensures Inv(s)
  {
    var s0: State, events: seq<Event> :| Init(s0) && IsRun(s0, events) && After(s0, events) == s;
    InvOfRun(s0, events);
  }

  // ---------- The results ----------

  /** In every interleaving, whether joinable, detached or never created, nobody touches the deleted
      delegate, it is never deleted twice, and it has been deleted once both threads are through. */
  lemma DeletedExactlyOnce(s: State)
    requires Reachable(s)
    ensures !s.touchedAfterDelete && s.d.deleted <= 1
    ensures s.parent.Finished? && (s.child == NotBorn || s.child == Dead) ==> s.d.deleted == 1
    ensures s.d.deleted == 1 ==> !ParentOwns(s) && !ChildOwns(s)
  {
    ReachableInv(s);
  }

  /** The thread deletes the runnable exactly once if it took it over, else never. */
  lemma RunnableDeletedByTaker(s: State)
    requires Reachable(s)
    ensures s.runnableDeleted <= 1
    ensures s.child == Dead ==> (s.runnableDeleted == 1 <==> s.ran)
    ensures s.child == NotBorn ==> s.runnableDeleted == 0
  {
    ReachableInv(s);
  }

  /** Once stop(), or the destructor, of a joinable thread is through, the thread has finished. */
  lemma StopMeansFinished(s: State)
    requires Reachable(s) && s.wantJoinable && s.parent == Finished(true)
    ensures s.child == Dead && s.d.deleted == 1
  {
    ReachableInv(s);
  }

  // ---------- How long the thread runs ----------

  /** The thread is on its way to the loop or in it, and nobody is stopping it: the goodbye of a
      detached thread does not. */
  predicate InItsLoop(s: State) {
    && s.d.runnable && (s.child == Born || s.child == Prerun || s.child == Loop || s.child == Running)
    && (|| s.parent == Created || s.parent == Holding
        || (!s.d.joinable && (s.parent == Bye || (s.parent.Destroying? && !s.parent.giveUp) || s.parent == Finished(true))))
  }

  lemma LoopStep(s: State, e: Event, s': State)
    requires InItsLoop(s) && Enabled(s, e) && s' == Apply(s, e)
    requires e != Stop && e != ChildStep(false) && (e == Leave ==> !s.d.joinable)
    ensures InItsLoop(s') && s'.d.joinable == s.d.joinable
  {
  }

  /** As long as run() returns true the thread goes on, unless it is stopped or, if it is joinable,
      its LocThread goes away. */
  lemma {:induction false} RunsUntilStopped(s: State, events: seq<Event>)
    requires InItsLoop(s) && IsRun(s, events)
    requires Stop !in events && ChildStep(false) !in events && (Leave in events ==> !s.d.joinable)
    ensures InItsLoop(After(s, events))
    decreases |events|
  {
    hide InItsLoop, Apply;
    if events != [] {
      assert events[0] in events;
      var s1 := Apply(s, events[0]);
      LoopStep(s, events[0], s1);
      RunsUntilStopped(s1, events[1..]);
    }
  }

  /** A thread that has run its loop for the last time, or is born to a stopped delegate. */
  predicate Ends(s: State) {
    s.parent != Creating && s.child != NotBorn
    && (!s.d.runnable || (s.child != Born && s.child != Prerun && s.child != Loop && s.child != Running))
  }

  /** The steps that such a thread has yet to take, at most. */
  function StepsLeft(c: Child): nat {
    match c
    case NotBorn => 0
    case Born => 4
    case Prerun => 8
    case Running => 8
    case Loop => 7
    case Postrun => 6
    case ClearRunnable => 5
    case DeleteRunnable => 4
    case Dying(at) => (match at case Check => 3 case Decrement => 2 case Delete => 1)
    case Dead => 0
  }

  function ChildSteps(events: seq<Event>): nat {
    if events == [] then 0 else (if events[0].ChildStep? then 1 else 0) + ChildSteps(events[1..])
  }

  lemma ParentStepLeaves(s: State, e: Event, s': State)
    requires s.parent != Creating && !e.ChildStep? && Enabled(s, e) && s' == Apply(s, e)
    ensures s'.parent != Creating && s'.child == s.child && (s'.d.runnable ==> s.d.runnable)
  {
  }

  lemma ChildStepEnds(s: State, again: bool, s': State)
    requires Ends(s) && Enabled(s, ChildStep(again)) && s' == ChildGoes(s, again)
    ensures Ends(s') && StepsLeft(s'.child) + 1 <= StepsLeft(s.child)
  {
  }

  lemma EndsStep(s: State, e: Event, s': State)
    requires Ends(s) && Enabled(s, e) && s' == Apply(s, e)
    ensures Ends(s')
    ensures StepsLeft(s'.child) + (if e.ChildStep? then 1 else 0) <= StepsLeft(s.child)
  {
    hide ParentGoes, ChildGoes;
    if e.ChildStep? {
      ChildStepEnds(s, e.again, s');
    } else {
      ParentStepLeaves(s, e, s');
    }
  }

  /** Whatever the other thread does and run() returns, such a thread is dead after that many steps
      of its own, and can take a step until then. */
  lemma {:induction false} EndsSoon(s: State, events: seq<Event>)
    requires Ends(s) && IsRun(s, events)
    ensures Ends(After(s, events))
    ensures ChildSteps(events) + StepsLeft(After(s, events).child) <= StepsLeft(s.child) <= 8
    ensures After(s, events).child == Dead || Enabled(After(s, events), ChildStep(true))
    ensures ChildSteps(events) == StepsLeft(s.child) ==> After(s, events).child == Dead
    decreases |events|
  {
    if events != [] {
      var s1 := Apply(s, events[0]);
      EndsStep(s, events[0], s1);
      EndsSoon(s1, events[1..]);
    }
  }

  /** stop() ends the thread: past its first test of mRunnable, isRunning() is false for good, so that
      the thread is dead after at most eight more steps, and then the join returns. */
  lemma StopEndsTheThread(s: State, events: seq<Event>)
    requires Reachable(s) && (s.parent == JoinRead || s.parent == JoinClear || s.parent == Join)
    requires IsRun(s, events)
    ensures !s.d.runnable && Ends(s)
    ensures var s' := After(s, events);
            && ChildSteps(events) <= 8
            && (s'.child == Dead || Enabled(s', ChildStep(true)))
            && (ChildSteps(events) == StepsLeft(s.child) ==> s'.child == Dead)
            && (s'.child == Dead && s'.parent == Join ==> Enabled(s', ParentStep))
  {
    ReachableInv(s);
    EndsSoon(s, events);
  }

  /** When run() has returned it is called again if and only if it returned true and nobody has
      stopped the thread. */
  lemma RunAgain(s: State, again: bool)
    requires s.child == Running
    ensures var s1 := Apply(s, ChildStep(again));
            && (!again && s.parent != Creating ==> Ends(s1))
            && (again ==> s1.child == Loop && (Apply(s1, ChildStep(again)).child == Running <==> s.d.runnable))
  {
  }

  // ---------- A failed start ----------

  /** LocThread.h leaves the runnable to the client when start() returns false
      (gps/utils/LocThread.h:75-77). That is right if and only if no thread was created: a thread
      that ends before create() looks at it makes start() fail as well, and deletes the runnable. */
  lemma FailedStart(s: State)
    requires Reachable(s) && s.parent == Finished(false)
    ensures s.child == NotBorn <==> !s.ran
    ensures s.child == Dead ==> s.runnableDeleted == 1
  {
    ReachableInv(s);
  }

  lemma OneStep(s: State, e: Event, s': State, events: seq<Event>)
    requires Enabled(s, e) && s' == Apply(s, e) && IsRun(s', events)
    ensures IsRun(s, [e] + events) && After(s, [e] + events) == After(s', events)
  {
    assert ([e] + events)[1..] == events;
  }

  const RACE := State(Delegate(true, true, 2, 0), Creating, NotBorn, true, false, false, 0)
  const ENDED := State(Delegate(false, true, 1, 0), Created, Dead, true, false, true, 1)

  /** The thread runs to its end before create() tests isRunning(). */
  lemma ThreadEndsFirst() returns (events: seq<Event>)
    ensures Init(RACE) && IsRun(RACE, events) && After(RACE, events) == ENDED
  {
    var c := ChildStep(false);
    var s1 := Apply(RACE, Spawn(true));
    var s2 := Apply(s1, c);
    var s3 := Apply(s2, c);
    var s4 := Apply(s3, c);
    var s5 := Apply(s4, c);
    var s6 := Apply(s5, c);
    var s7 := Apply(s6, c);
    var s8 := Apply(s7, c);
    var s9 := Apply(s8, c);
    var s10 := Apply(s9, c);
    assert s10 == ENDED && IsRun(s10, []) && After(s10, []) == s10;
    hide IsRun, After;
    events := [];
    OneStep(s9, c, s10, events); events := [c] + events;
    OneStep(s8, c, s9, events); events := [c] + events;
    OneStep(s7, c, s8, events); events := [c] + events;
    OneStep(s6, c, s7, events); events := [c] + events;
    OneStep(s5, c, s6, events); events := [c] + events;
    OneStep(s4, c, s5, events); events := [c] + events;
    OneStep(s3, c, s4, events); events := [c] + events;
    OneStep(s2, c, s3, events); events := [c] + events;
    OneStep(s1, c, s2, events); events := [c] + events;
    OneStep(RACE, Spawn(true), s1, events); events := [Spawn(true)] + events;
  }

  /** From there start() fails although the thread was created and the runnable is gone. */
  lemma StartFailsAfterTheThread() returns (events: seq<Event>)
    ensures IsRun(ENDED, events)
    ensures var s := After(ENDED, events); s.parent == Finished(false) && s.runnableDeleted == 1
  {
    var p := ParentStep;
    var s1 := Apply(ENDED, p);
    var s2 := Apply(s1, p);
    var s3 := Apply(s2, p);
    var s4 := Apply(s3, p);
    events := [];
    OneStep(s3, p, s4, events); events := [p] + events;
    OneStep(s2, p, s3, events); events := [p] + events;
    OneStep(s1, p, s2, events); events := [p] + events;
    OneStep(ENDED, p, s1, events); events := [p] + events;
  }
}
