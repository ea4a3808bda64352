/** One-shot actions: how often a handler can run, and that a registered one is never
    forgotten. */
module OneShotTimers {
  import opened Counting
  import opened TimeoutActions

  function AddOf(x: Id): Msg -> bool {
    (m: Msg) => m.Add? && m.id == x
  }

  function RunOf(x: Id): Id -> bool {
    (id: Id) => id == x
  }

  function Runs(s: State, x: Id): nat {
    Count(s.runs, RunOf(x))
  }

  /** The chances an action still has to run: an add on its way, a registration, or a pause. */
  function Chances(s: State, x: Id): nat {
    Count(s.queue, AddOf(x)) + One(x in s.timeoutActionMap) + One(x in s.pauseTimerEvent)
  }

  /** Nothing on its way asks to repeat `x`. */
  ghost predicate OneShot(s: State, x: Id) {
    && (forall m | m in s.queue :: (m.Add? || m.Expire?) && m.id == x ==> !m.repeat)
    && (forall w | w in s.waiters :: w.id == x ==> !w.repeat)
  }

  /** The message handled by `e`, if any, is an expiry of `x` whose handler panics. */
  predicate PanicOf(s: State, e: Event, x: Id) {
    && e.Handle? && e.i < |s.queue| && e.panics
    && s.queue[e.i].Expire? && s.queue[e.i].id == x
  }

  predicate Adds(e: Event, x: Id) {
    e.Submit? && e.m.Add? && e.m.id == x
  }

  predicate RepeatsNot(e: Event, x: Id) {
    Adds(e, x) ==> !e.m.repeat
  }

  function AddEventOf(x: Id): Event -> bool {
    (e: Event) => Adds(e, x)
  }

  function AddEvents(es: seq<Event>, x: Id): nat {
    Count(es, AddEventOf(x))
  }

  function PanicEvents(s: State, es: seq<Event>, x: Id): nat
    decreases |es|
  {
    if es == [] then 0 else One(PanicOf(s, es[0], x)) + PanicEvents(Step(s, es[0]), es[1..], x)
  }

  lemma ArmSpendsNothing(
    s: State, id: Id, waitTime: int, action: Action, repeat: bool, now: int, x: Id)
    ensures var t := Arm(s, id, waitTime, action, repeat, now);
      && t.queue == s.queue && t.runs == s.runs
      && Chances(t, x) <= Chances(s, x) + One(id == x && x !in s.timeoutActionMap)
  {
  }

  lemma UnregisterSpendsChance(s: State, id: Id, x: Id)
    ensures Chances(Unregister(s, id), x) + One(id == x && x in s.timeoutActionMap) == Chances(s, x)
    ensures Unregister(s, id).runs == s.runs
  {
  }

  lemma RearmSpendsNothing(s: State, id: Id, waitTime: int, repeat: bool, x: Id)
    requires id == x ==> !repeat
    ensures Chances(Rearm(s, id, waitTime, repeat), x) == Chances(s, x)
  {
    CountAppend(s.queue, Add(id, waitTime, Nil, true), AddOf(x));
  }

  lemma ExecuteSpendsChance(s: State, id: Id, waitTime: int, repeat: bool, panics: bool, x: Id)
    requires Consistent(s) && (id == x ==> !repeat)
    ensures var t := Execute(s, id, waitTime, repeat, panics);
      Chances(t, x) + Runs(t, x) <= Chances(s, x) + Runs(s, x) + One(panics && id == x)
  {
    if id in s.timeoutActionMap {
      var t := Rearm(s, id, waitTime, repeat);
      RearmSpendsNothing(s, id, waitTime, repeat, x);
      CountAppend(s.runs, id, RunOf(x));
      UnregisterSpendsChance(t, id, x);
    } else {
      UnregisterSpendsChance(s, id, x);
    }
  }

  /** Handling one message never creates a chance: a run uses one up, unless it panics. */
  lemma HandleSpendsChance(s: State, m: Msg, now: int, panics: bool, x: Id)
    requires Consistent(s) && ((m.Add? || m.Expire?) && m.id == x ==> !m.repeat)
    ensures var t := HandleMsg(s, m, now, panics);
      Chances(t, x) + Runs(t, x) <=
        Chances(s, x) + Runs(s, x) + One(AddOf(x)(m)) + One(panics && m.Expire? && m.id == x)
  {
    match m
    case Add(id, waitTime, action, repeat) => ArmSpendsNothing(s, id, waitTime, action, repeat, now, x);
    case Resume(id) =>
      if id in s.pauseTimerEvent {
        var info := s.pauseTimerEvent[id];
        var t := s.(pauseTimerEvent := s.pauseTimerEvent - {id});
        ArmSpendsNothing(t, id, Remaining(info), info.action, false, now, x);
      }
    case Expire(id, waitTime, repeat) => ExecuteSpendsChance(s, id, waitTime, repeat, panics, x);
    case Pause(id) => UnregisterSpendsChance(if id in s.timerInfo then SetAside(s, id, now) else s, id, x);
    case Del(id) => UnregisterSpendsChance(s, id, x);
  }

  lemma ArmKeepsOneShot(
    s: State, id: Id, waitTime: int, action: Action, repeat: bool, now: int, x: Id)
    requires OneShot(s, x) && (id == x ==> !repeat)
    ensures OneShot(Arm(s, id, waitTime, action, repeat, now), x)
  {
  }

  lemma ExecuteKeepsOneShot(s: State, id: Id, waitTime: int, repeat: bool, panics: bool, x: Id)
    requires OneShot(s, x) && (id == x ==> !repeat)
    ensures OneShot(Execute(s, id, waitTime, repeat, panics), x)
  {
    assert OneShot(Rearm(s, id, waitTime, repeat), x);
  }

  lemma HandleKeepsOneShot(s: State, m: Msg, now: int, panics: bool, x: Id)
    requires OneShot(s, x) && ((m.Add? || m.Expire?) && m.id == x ==> !m.repeat)
    ensures OneShot(HandleMsg(s, m, now, panics), x)
  {
    match m
    case Add(id, waitTime, action, repeat) => ArmKeepsOneShot(s, id, waitTime, action, repeat, now, x);
    case Resume(id) =>
      if id in s.pauseTimerEvent {
        var info := s.pauseTimerEvent[id];
        var t := s.(pauseTimerEvent := s.pauseTimerEvent - {id});
        ArmKeepsOneShot(t, id, Remaining(info), info.action, false, now, x);
      }
    case Expire(id, waitTime, repeat) => ExecuteKeepsOneShot(s, id, waitTime, repeat, panics, x);
    case _ =>
  }

  lemma WaiterStepKeepsOneShot(s: State, e: Event, x: Id)
    requires OneShot(s, x) && (e.Fire? || e.Cancel?) && e.i < |s.waiters|
    ensures OneShot(Step(s, e), x)
  {
    assert s.waiters[e.i] in s.waiters && forall w | w in Remove(s.waiters, e.i) :: w in s.waiters;
  }

  lemma StepKeepsOneShot(s: State, e: Event, x: Id)
    requires OneShot(s, x) && RepeatsNot(e, x)
    ensures OneShot(Step(s, e), x)
  {
    if e.Handle? && e.i < |s.queue| {
      var t := s.(queue := Remove(s.queue, e.i));
      assert s.queue[e.i] in s.queue && forall m | m in t.queue :: m in s.queue;
      HandleKeepsOneShot(t, s.queue[e.i], e.now, e.panics, x);
    } else if (e.Fire? || e.Cancel?) && e.i < |s.waiters| {
      WaiterStepKeepsOneShot(s, e, x);
    }
  }

  lemma StepSpendsChance(s: State, e: Event, x: Id)
    requires Consistent(s) && OneShot(s, x) && RepeatsNot(e, x)
    ensures var t := Step(s, e);
      Chances(t, x) + Runs(t, x) <= Chances(s, x) + Runs(s, x) + One(Adds(e, x)) + One(PanicOf(s, e, x))
  {
    if e.Submit? {
      CountAppend(s.queue, e.m, AddOf(x));
    } else if e.Handle? && e.i < |s.queue| {
      CountRemove(s.queue, e.i, AddOf(x));
      assert s.queue[e.i] in s.queue;
      HandleSpendsChance(s.(queue := Remove(s.queue, e.i)), s.queue[e.i], e.now, e.panics, x);
    } else if e.Fire? && e.i < |s.waiters| {
      var w := s.waiters[e.i];
      CountAppend(s.queue, Expire(w.id, w.waitTime, w.repeat), AddOf(x));
    }
  }

  lemma {:induction false} RunsAreBounded(s: State, es: seq<Event>, x: Id)
    requires Consistent(s) && OneShot(s, x) && forall e | e in es :: RepeatsNot(e, x)
    ensures Chances(Run(s, es), x) + Runs(Run(s, es), x) <=
      Chances(s, x) + Runs(s, x) + AddEvents(es, x) + PanicEvents(s, es, x)
    decreases |es|
  {
    if es != [] {
      StepKeepsConsistent(s, es[0]);
      StepKeepsOneShot(s, es[0], x);
      StepSpendsChance(s, es[0], x);
      RunsAreBounded(Step(s, es[0]), es[1..], x);
    }
  }

  /** A one-shot action runs at most once for each time it was added, in every run, whatever
      the order of pauses, resumes, deletes and stale expiries, if its handler does not
      panic; each panic allows one more run. */
  lemma RunsAtMostAsAdded(es: seq<Event>, x: Id)
    requires forall e | e in es :: RepeatsNot(e, x)
    ensures Runs(Run(INITIAL, es), x) <= AddEvents(es, x) + PanicEvents(INITIAL, es, x)
  {
    RunsAreBounded(INITIAL, es, x);
  }

  lemma {:induction false} RunKeepsOneShot(s: State, es: seq<Event>, x: Id)
    requires OneShot(s, x) && forall e | e in es :: RepeatsNot(e, x)
    ensures OneShot(Run(s, es), x)
    decreases |es|
  {
    if es != [] {
      StepKeepsOneShot(s, es[0], x);
      RunKeepsOneShot(Step(s, es[0]), es[1..], x);
    }
  }

  // ----- a registered action is not forgotten

  /** Wherever `x` has an action, it is a function. */
  ghost predicate HasFunction(s: State, x: Id) {
    && (forall m | m in s.queue :: AddOf(x)(m) ==> m.action.Fn?)
    && (x in s.timeoutActionMap ==> s.timeoutActionMap[x].Fn?)
    && (x in s.timerInfo ==> s.timerInfo[x].action.Fn?)
    && (x in s.pauseTimerEvent ==> s.pauseTimerEvent[x].action.Fn?)
  }

  predicate AddsFunction(e: Event, x: Id) {
    Adds(e, x) ==> !e.m.repeat && e.m.action.Fn?
  }

  /** If `x` is registered, a waiter listens on its own channel or its expiry is on its way. */
  ghost predicate Alive(s: State, x: Id) {
    x in s.timeoutActionMap ==>
      (exists w | w in s.waiters :: w.id == x && Owns(s, w)) || (exists m | m in s.queue :: m.Expire? && m.id == x)
  }

  lemma ArmKeepsFunction(
    s: State, id: Id, waitTime: int, action: Action, repeat: bool, now: int, x: Id)
    requires HasFunction(s, x) && (id == x ==> action.Fn?)
    ensures HasFunction(Arm(s, id, waitTime, action, repeat, now), x)
  {
  }

  lemma UnregisterKeepsFunction(s: State, id: Id, x: Id)
    requires HasFunction(s, x)
    ensures HasFunction(Unregister(s, id), x)
  {
  }

  lemma ExecuteKeepsFunction(s: State, id: Id, waitTime: int, repeat: bool, panics: bool, x: Id)
    requires HasFunction(s, x) && (id == x ==> !repeat)
    ensures HasFunction(Execute(s, id, waitTime, repeat, panics), x)
  {
    var t := Rearm(s, id, waitTime, repeat);
    UnregisterKeepsFunction(if id in s.timeoutActionMap then t.(runs := t.runs + [id]) else s, id, x);
  }

  lemma HandleKeepsFunction(s: State, m: Msg, now: int, panics: bool, x: Id)
    requires HasFunction(s, x) && (AddOf(x)(m) ==> m.action.Fn?) && (m.Expire? && m.id == x ==> !m.repeat)
    ensures HasFunction(HandleMsg(s, m, now, panics), x)
  {
    match m
    case Add(id, waitTime, action, repeat) => ArmKeepsFunction(s, id, waitTime, action, repeat, now, x);
    case Resume(id) =>
      if id in s.pauseTimerEvent {
        var info := s.pauseTimerEvent[id];
        var t := s.(pauseTimerEvent := s.pauseTimerEvent - {id});
        ArmKeepsFunction(t, id, Remaining(info), info.action, false, now, x);
      }
    case Expire(id, waitTime, repeat) => ExecuteKeepsFunction(s, id, waitTime, repeat, panics, x);
    case Pause(id) => UnregisterKeepsFunction(if id in s.timerInfo then SetAside(s, id, now) else s, id, x);
    case Del(id) => UnregisterKeepsFunction(s, id, x);
  }

  lemma TakenKeepsFunction(s: State, i: nat, x: Id)
    requires OneShot(s, x) && HasFunction(s, x) && i < |s.queue|
    ensures var t, m := s.(queue := Remove(s.queue, i)), s.queue[i];
      HasFunction(t, x) && (AddOf(x)(m) ==> m.action.Fn?) && (m.Expire? && m.id == x ==> !m.repeat)
  {
    assert s.queue[i] in s.queue && forall q | q in Remove(s.queue, i) :: q in s.queue;
  }

  lemma QueuedKeepsFunction(s: State, m: Msg, x: Id)
    requires HasFunction(s, x) && (AddOf(x)(m) ==> m.action.Fn?)
    ensures HasFunction(s.(queue := s.queue + [m]), x)
  {
  }

  lemma StepKeepsFunction(s: State, e: Event, x: Id)
    requires OneShot(s, x) && HasFunction(s, x) && AddsFunction(e, x)
    ensures HasFunction(Step(s, e), x)
  {
    if e.Handle? && e.i < |s.queue| {
      TakenKeepsFunction(s, e.i, x);
      HandleKeepsFunction(s.(queue := Remove(s.queue, e.i)), s.queue[e.i], e.now, e.panics, x);
    } else if e.Submit? {
      QueuedKeepsFunction(s, e.m, x);
    } else if e.Fire? && e.i < |s.waiters| {
      var w := s.waiters[e.i];
      QueuedKeepsFunction(s, Expire(w.id, w.waitTime, w.repeat), x);
    }
  }

  lemma ArmKeepsAlive(s: State, id: Id, waitTime: int, action: Action, repeat: bool, now: int, x: Id)
    requires Consistent(s) && Alive(s, x)
    ensures Alive(Arm(s, id, waitTime, action, repeat, now), x)
  {
    var t := Arm(s, id, waitTime, action, repeat, now);
    if t.waiters != s.waiters {
      assert t.waiters[|s.waiters|] in t.waiters;
    }
    assert forall w | w in s.waiters && w.id == x && x in s.timeoutActionMap && Owns(s, w) ::
      w in t.waiters && Owns(t, w);
  }

  lemma UnregisterKeepsAlive(s: State, id: Id, x: Id)
    requires Alive(s, x)
    ensures Alive(Unregister(s, id), x)
  {
    var t := Unregister(s, id);
    assert id != x ==> forall w | w in s.waiters && w.id == x && Owns(s, w) :: w in t.waiters && Owns(t, w);
  }

  lemma ExecuteKeepsAlive(s: State, id: Id, waitTime: int, repeat: bool, panics: bool, x: Id)
    requires Alive(s, x) && id != x
    ensures Alive(Execute(s, id, waitTime, repeat, panics), x)
  {
    var t := Rearm(s, id, waitTime, repeat);
    assert Alive(t, x);
    UnregisterKeepsAlive(if id in s.timeoutActionMap then t.(runs := t.runs + [id]) else s, id, x);
  }

  /** Handling a message other than an expiry of `x`. */
  lemma HandleKeepsAlive(s: State, m: Msg, now: int, panics: bool, x: Id)
    requires Consistent(s) && Alive(s, x) && (m.Expire? ==> m.id != x)
    ensures Alive(HandleMsg(s, m, now, panics), x)
  {
    match m
    case Add(id, waitTime, action, repeat) => ArmKeepsAlive(s, id, waitTime, action, repeat, now, x);
    case Resume(id) =>
      if id in s.pauseTimerEvent {
        var t := s.(pauseTimerEvent := s.pauseTimerEvent - {id});
        assert Consistent(t) && Alive(t, x);
        ArmKeepsAlive(t, id, Remaining(s.pauseTimerEvent[id]), s.pauseTimerEvent[id].action, false, now, x);
      }
    case Expire(id, waitTime, repeat) => ExecuteKeepsAlive(s, id, waitTime, repeat, panics, x);
    case Pause(id) => UnregisterKeepsAlive(if id in s.timerInfo then SetAside(s, id, now) else s, id, x);
    case Del(id) => UnregisterKeepsAlive(s, id, x);
  }

  /** An expiry of `x` unregisters it, unless its handler panics. */
  lemma ExpiryUnregisters(s: State, waitTime: int, x: Id)
    requires HasFunction(s, x)
    ensures x !in Execute(s, x, waitTime, false, false).timeoutActionMap
  {
  }

  lemma FireKeepsAlive(s: State, i: nat, x: Id)
    requires Alive(s, x) && i < |s.waiters|
    ensures Alive(Step(s, Fire(i)), x)
  {
    var t := Step(s, Fire(i));
    assert t.queue[|s.queue|] in t.queue && forall m | m in s.queue :: m in t.queue;
    assert forall v | v in s.waiters && v != s.waiters[i] :: v in t.waiters && (Owns(s, v) ==> Owns(t, v));
  }

  /** A registered channel is open, so the waiter that gives up is not the action's own. */
  lemma CancelKeepsAlive(s: State, i: nat, x: Id)
    requires Consistent(s) && Alive(s, x) && i < |s.waiters|
    ensures Alive(Step(s, Cancel(i)), x)
  {
    var t := Step(s, Cancel(i));
    assert forall v | v in s.waiters && v != s.waiters[i] :: v in t.waiters && (Owns(s, v) ==> Owns(t, v));
  }

  lemma StepKeepsAlive(s: State, e: Event, x: Id)
    requires Consistent(s) && OneShot(s, x) && HasFunction(s, x) && Alive(s, x) && !PanicOf(s, e, x)
    ensures Alive(Step(s, e), x)
  {
    if e.Handle? && e.i < |s.queue| {
      var t, m := s.(queue := Remove(s.queue, e.i)), s.queue[e.i];
      MessagesKeepConsistent(s, t.queue, s.runs);
      if m.Expire? && m.id == x {
        assert m in s.queue;
        ExpiryUnregisters(t, m.waitTime, x);
      } else {
        assert forall q | q in s.queue && q != m :: q in t.queue;
        assert Alive(t, x);
        HandleKeepsAlive(t, m, e.now, e.panics, x);
      }
    } else if e.Fire? && e.i < |s.waiters| {
      FireKeepsAlive(s, e.i, x);
    } else if e.Cancel? && e.i < |s.waiters| {
      CancelKeepsAlive(s, e.i, x);
    }
  }

  lemma {:induction false} RunKeepsAlive(s: State, es: seq<Event>, x: Id)
    requires Consistent(s) && OneShot(s, x) && HasFunction(s, x) && Alive(s, x)
    requires (forall e | e in es :: AddsFunction(e, x)) && PanicEvents(s, es, x) == 0
    ensures Alive(Run(s, es), x)
    decreases |es|
  {
    if es != [] {
      StepKeepsConsistent(s, es[0]);
      assert AddsFunction(es[0], x);
      StepKeepsOneShot(s, es[0], x);
      StepKeepsFunction(s, es[0], x);
      StepKeepsAlive(s, es[0], x);
      RunKeepsAlive(Step(s, es[0]), es[1..], x);
    }
  }

  /** No lost timer: in every run in which the handler of a one-shot action does not panic,
      whenever the action is registered a waiter listens on its own channel or its expiry is
      on its way, so its time will come. */
  lemma RegisteredIsAlive(es: seq<Event>, x: Id)
    requires (forall e | e in es :: AddsFunction(e, x)) && PanicEvents(INITIAL, es, x) == 0
    ensures Alive(Run(INITIAL, es), x)
  {
    RunKeepsAlive(INITIAL, es, x);
  }
}
