/** Can the handler of an action still run, or the action be registered again, if nobody adds
    it anew? The exact answer, and what it says about deletes and panics. */
module HandlerRuns {
  import opened Counting
  import opened TimeoutActions
  import opened OneShotTimers

  predicate NoAdds(es: seq<Event>, x: Id) {
    forall e | e in es :: !Adds(e, x)
  }

  /** Some continuation in which nobody adds `x` starts its handler. */
  ghost predicate CanRun(s: State, x: Id) {
    exists es :: NoAdds(es, x) && Runs(Run(s, es), x) > Runs(s, x)
  }

  /** Some continuation in which nobody adds `x` registers it. */
  ghost predicate CanRegister(s: State, x: Id) {
    exists es :: NoAdds(es, x) && x in Run(s, es).timeoutActionMap
  }

  predicate AddsHandler(m: Msg, x: Id) {
    m.Add? && m.id == x && m.action.Fn?
  }

  /** An add of `x` that carries a function is on its way. */
  predicate AddPending(s: State, x: Id) {
    exists m | m in s.queue :: AddsHandler(m, x)
  }

  predicate PausedWithFunction(s: State, x: Id) {
    x in s.pauseTimerEvent && s.pauseTimerEvent[x].action.Fn?
  }

  /** `x` is registered with a function, or else paused with one. A registered action hides a
      paused one: what ends the registration also ends or replaces the pause. */
  predicate HoldsFunction(s: State, x: Id) {
    if x in s.timeoutActionMap then s.timeoutActionMap[x].Fn? else PausedWithFunction(s, x)
  }

  // ----- ways to run it

  lemma RunVia(s: State, e: Event, x: Id)
    requires !Adds(e, x) && Step(s, e).runs == s.runs && CanRun(Step(s, e), x)
    ensures CanRun(s, x)
  {
    var t := Step(s, e);
    var es :| NoAdds(es, x) && Runs(Run(t, es), x) > Runs(t, x);
    assert ([e] + es)[1..] == es;
    assert Run(s, [e] + es) == Run(t, es);
  }

  /** Somebody sends `m` and the main loop takes it at once. */
  lemma RunViaMessage(s: State, m: Msg, now: int, x: Id)
    requires !m.Expire? && !(m.Add? && m.id == x)
    requires HandleMsg(s, m, now, false).runs == s.runs && CanRun(HandleMsg(s, m, now, false), x)
    ensures CanRun(s, x)
  {
    var t := Step(s, Submit(m));
    assert Remove(t.queue, |s.queue|) == s.queue;
    assert Step(t, Handle(|s.queue|, now, false)) == HandleMsg(s, m, now, false);
    RunVia(t, Handle(|s.queue|, now, false), x);
    RunVia(s, Submit(m), x);
  }

  lemma RunNow(s: State, e: Event, x: Id)
    requires !Adds(e, x) && Step(s, e).runs == s.runs + [x]
    ensures CanRun(s, x)
  {
    CountAppend(s.runs, x, RunOf(x));
    assert Run(Step(s, e), []) == Step(s, e);
    assert Run(s, [e]) == Step(s, e);
    assert NoAdds([e], x);
  }

  lemma ExpiryCanRun(s: State, x: Id, i: nat)
    requires x in s.timeoutActionMap && s.timeoutActionMap[x].Fn?
    requires i < |s.queue| && s.queue[i].Expire? && s.queue[i].id == x
    ensures CanRun(s, x)
  {
    RunNow(s, Handle(i, 0, false), x);
  }

  lemma WaiterCanRun(s: State, x: Id, i: nat)
    requires x in s.timeoutActionMap && s.timeoutActionMap[x].Fn? && i < |s.waiters| && s.waiters[i].id == x
    ensures CanRun(s, x)
  {
    ExpiryCanRun(Step(s, Fire(i)), x, |s.queue|);
    RunVia(s, Fire(i), x);
  }

  /** Resuming a paused action arms a waiter for it. */
  lemma PausedCanRun(s: State, x: Id)
    requires x !in s.timeoutActionMap && PausedWithFunction(s, x)
    ensures CanRun(s, x)
  {
    WaiterCanRun(HandleMsg(s, Resume(x), 0, false), x, |s.waiters|);
    RunViaMessage(s, Resume(x), 0, x);
  }

  /** A registered action can always be paused and resumed, which arms a new waiter. */
  lemma RegisteredCanRun(s: State, x: Id)
    requires Consistent(s) && x in s.timeoutActionMap && s.timeoutActionMap[x].Fn?
    ensures CanRun(s, x)
  {
    PausedCanRun(HandleMsg(s, Pause(x), 0, false), x);
    RunViaMessage(s, Pause(x), 0, x);
  }

  /** An add on its way takes effect once what is registered has been deleted. */
  lemma AddCanRun(s: State, x: Id)
    requires Consistent(s) && AddPending(s, x)
    ensures CanRun(s, x)
  {
    var i :| 0 <= i < |s.queue| && AddsHandler(s.queue[i], x);
    var t := HandleMsg(s, Del(x), 0, false);
    assert t.queue == s.queue && x !in t.timeoutActionMap;
    var u := Step(t, Handle(i, 0, false));
    WaiterCanRun(u, x, |t.waiters|);
    RunVia(t, Handle(i, 0, false), x);
    RunViaMessage(s, Del(x), 0, x);
  }

  // ----- otherwise it never runs

  /** Nothing is left that could start the handler of `x`. */
  predicate Spent(s: State, x: Id) {
    !HoldsFunction(s, x) && !AddPending(s, x)
  }

  lemma ArmKeepsSpent(s: State, id: Id, waitTime: int, action: Action, repeat: bool, now: int, x: Id)
    requires !HoldsFunction(s, x) && (id == x ==> action.Nil?)
    ensures !HoldsFunction(Arm(s, id, waitTime, action, repeat, now), x)
  {
  }

  lemma UnregisterKeepsSpent(s: State, id: Id, x: Id)
    requires !HoldsFunction(s, x) && (id == x && x in s.timeoutActionMap ==> !PausedWithFunction(s, x))
    ensures !HoldsFunction(Unregister(s, id), x)
  {
  }

  lemma QueueKeepsSpent(s: State, m: Msg, x: Id)
    requires !AddPending(s, x) && !AddsHandler(m, x)
    ensures !AddPending(s.(queue := s.queue + [m]), x)
  {
  }

  /** The handler of another action. */
  lemma OtherRunKeepsSpent(s: State, id: Id, x: Id)
    requires Spent(s, x) && id != x
    ensures var t := s.(runs := s.runs + [id]);
      && Spent(t, x) && Runs(t, x) == Runs(s, x)
      && Spent(Unregister(t, id), x) && Runs(Unregister(t, id), x) == Runs(s, x)
  {
    CountAppend(s.runs, id, RunOf(x));
    UnregisterKeepsSpent(s.(runs := s.runs + [id]), id, x);
  }

  lemma ExecuteKeepsSpent(s: State, id: Id, waitTime: int, repeat: bool, panics: bool, x: Id)
    requires Spent(s, x)
    ensures var t := Execute(s, id, waitTime, repeat, panics); Spent(t, x) && Runs(t, x) == Runs(s, x)
  {
    var t := Rearm(s, id, waitTime, repeat);
    QueueKeepsSpent(s, Add(id, waitTime, Nil, true), x);
    if id !in s.timeoutActionMap {
      UnregisterKeepsSpent(s, id, x);
    } else if id != x {
      OtherRunKeepsSpent(t, id, x);
    }
  }

  lemma PauseKeepsSpent(s: State, id: Id, now: int, x: Id)
    requires Consistent(s) && !HoldsFunction(s, x)
    ensures !HoldsFunction(Unregister(if id in s.timerInfo then SetAside(s, id, now) else s, id), x)
  {
    UnregisterKeepsSpent(if id in s.timerInfo then SetAside(s, id, now) else s, id, x);
  }

  lemma DeleteKeepsSpent(s: State, id: Id, x: Id)
    requires !HoldsFunction(s, x)
    ensures !HoldsFunction(Unregister(s, id).(pauseTimerEvent := s.pauseTimerEvent - {id}), x)
  {
  }

  lemma HandleKeepsSpent(s: State, m: Msg, now: int, panics: bool, x: Id)
    requires Consistent(s) && Spent(s, x) && !AddsHandler(m, x)
    ensures var t := HandleMsg(s, m, now, panics); Spent(t, x) && Runs(t, x) == Runs(s, x)
  {
    match m
    case Add(id, waitTime, action, repeat) => ArmKeepsSpent(s, id, waitTime, action, repeat, now, x);
    case Resume(id) =>
      if id in s.pauseTimerEvent && !(id == x && x in s.timeoutActionMap) {
        var info := s.pauseTimerEvent[id];
        var t := s.(pauseTimerEvent := s.pauseTimerEvent - {id});
        ArmKeepsSpent(t, id, Remaining(info), info.action, false, now, x);
      }
    case Expire(id, waitTime, repeat) => ExecuteKeepsSpent(s, id, waitTime, repeat, panics, x);
    case Pause(id) => PauseKeepsSpent(s, id, now, x);
    case Del(id) => DeleteKeepsSpent(s, id, x);
  }

  lemma TakenAddPending(s: State, i: nat, x: Id)
    requires i < |s.queue| && !AddsHandler(s.queue[i], x)
    ensures AddPending(s.(queue := Remove(s.queue, i)), x) <==> AddPending(s, x)
  {
    assert forall m | m in s.queue && m != s.queue[i] :: m in Remove(s.queue, i);
    assert forall m | m in Remove(s.queue, i) :: m in s.queue;
  }

  lemma StepKeepsSpent(s: State, e: Event, x: Id)
    requires Consistent(s) && Spent(s, x) && !Adds(e, x)
    ensures Spent(Step(s, e), x) && Runs(Step(s, e), x) == Runs(s, x)
  {
    if e.Submit? {
      QueueKeepsSpent(s, e.m, x);
    } else if e.Handle? && e.i < |s.queue| {
      var t := s.(queue := Remove(s.queue, e.i));
      MessagesKeepConsistent(s, t.queue, s.runs);
      assert !AddsHandler(s.queue[e.i], x);
      TakenAddPending(s, e.i, x);
      HandleKeepsSpent(t, s.queue[e.i], e.now, e.panics, x);
    } else if e.Fire? && e.i < |s.waiters| {
      var w := s.waiters[e.i];
      QueueKeepsSpent(s, Expire(w.id, w.waitTime, w.repeat), x);
    }
  }

  lemma {:induction false} SpentNeverRuns(s: State, es: seq<Event>, x: Id)
    requires Consistent(s) && Spent(s, x) && NoAdds(es, x)
    ensures Runs(Run(s, es), x) == Runs(s, x)
    decreases |es|
  {
    if es != [] {
      StepKeepsConsistent(s, es[0]);
      StepKeepsSpent(s, es[0], x);
      SpentNeverRuns(Step(s, es[0]), es[1..], x);
    }
  }

  /** Without a new add the handler of `x` can still run exactly if an add with a function is
      on its way, or `x` is registered with a function, or is not registered and paused with
      one. Waiters and expiries in flight make no difference. */
  lemma CanRunIffHeld(s: State, x: Id)
    requires Consistent(s)
    ensures CanRun(s, x) <==> HoldsFunction(s, x) || AddPending(s, x)
  {
    if AddPending(s, x) {
      AddCanRun(s, x);
    } else if x in s.timeoutActionMap && s.timeoutActionMap[x].Fn? {
      RegisteredCanRun(s, x);
    } else if HoldsFunction(s, x) {
      PausedCanRun(s, x);
    } else if CanRun(s, x) {
      var es :| NoAdds(es, x) && Runs(Run(s, es), x) > Runs(s, x);
      SpentNeverRuns(s, es, x);
    }
  }

  // ----- panics

  lemma ExecutedOnce(s: State, waitTime: int, panics: bool, x: Id)
    requires x in s.timeoutActionMap && s.timeoutActionMap[x].Fn?
    ensures var t := Execute(s, x, waitTime, false, panics);
      t.runs == s.runs + [x] && t.queue == s.queue && (HoldsFunction(t, x) <==> panics || PausedWithFunction(s, x))
  {
  }

  /** After a one-shot handler ran and had not also been paused or added again, it can run
      once more exactly if it panicked. */
  lemma RunsAgainIffPanicked(s: State, i: nat, now: int, panics: bool, x: Id)
    requires Consistent(s) && i < |s.queue| && s.queue[i].Expire? && s.queue[i].id == x && !s.queue[i].repeat
    requires x in s.timeoutActionMap && s.timeoutActionMap[x].Fn?
    ensures var t := Step(s, Handle(i, now, panics));
      && t.runs == s.runs + [x]
      && (CanRun(t, x) <==> panics || PausedWithFunction(s, x) || AddPending(s, x))
  {
    var t := Step(s, Handle(i, now, panics));
    StepKeepsConsistent(s, Handle(i, now, panics));
    CanRunIffHeld(t, x);
    TakenAddPending(s, i, x);
    ExecutedOnce(s.(queue := Remove(s.queue, i)), s.queue[i].waitTime, panics, x);
  }

  /** Added, armed, expired, and run with a panic. */
  lemma PanicRun() returns (es: seq<Event>, s: State)
    ensures s == Run(INITIAL, es) && s.runs == ["a"] && HoldsFunction(s, "a")
    ensures es != [] && Adds(es[0], "a") && !es[0].m.repeat && NoAdds(es[1..], "a")
  {
    var add := Submit(Add("a", 10, Fn(1), false));
    es, s := Extend([], INITIAL, add);
    es, s := Take(es, s, 0, false);
    assert s.waiters == [Waiter("a", 0, 10, false)] && s.queue == [];
    es, s := Extend(es, s, Fire(0));
    assert s.queue == [Expire("a", 10, false)];
    es, s := Take(es, s, 10, true);
    assert es == [add, Handle(0, 0, false), Fire(0), Handle(0, 10, true)];
  }

  lemma AddedOnce(first: seq<Event>, more: seq<Event>, x: Id)
    requires first != [] && Adds(first[0], x) && NoAdds(first[1..], x) && NoAdds(more, x)
    ensures AddEvents(first + more, x) == 1
  {
    CountZero(first[1..], AddEventOf(x));
    CountZero(more, AddEventOf(x));
    CountConcat(first, more, AddEventOf(x));
  }

  /** Such a run exists: added once, a handler that panics the first time runs again. */
  lemma PanicRunsTwice() returns (es: seq<Event>)
    ensures (forall e | e in es :: RepeatsNot(e, "a")) && AddEvents(es, "a") == 1 && Runs(Run(INITIAL, es), "a") >= 2
  {
    var first, s := PanicRun();
    RunKeepsConsistent(INITIAL, first);
    CanRunIffHeld(s, "a");
    var more :| NoAdds(more, "a") && Runs(Run(s, more), "a") > Runs(s, "a");
    es := first + more;
    RunAppend(INITIAL, first, more);
    AddedOnce(first, more, "a");
    assert s.runs == [] + ["a"];
    CountAppend([], "a", RunOf("a"));
  }

  // ----- deleting

  /** After a handled delete the handler can run without a new add exactly if an add with a
      function is still on its way. A repeating action's re-arm carries none. */
  lemma DeleteEndsRuns(s: State, x: Id, now: int)
    requires Consistent(s)
    ensures CanRun(HandleMsg(s, Del(x), now, false), x) <==> AddPending(s, x)
  {
    HandleKeepsConsistent(s, Del(x), now, false);
    CanRunIffHeld(HandleMsg(s, Del(x), now, false), x);
  }

  lemma AddCanRegister(s: State, x: Id)
    requires Count(s.queue, AddOf(x)) > 0
    ensures CanRegister(s, x)
  {
    CountZero(s.queue, AddOf(x));
    var i :| 0 <= i < |s.queue| && AddOf(x)(s.queue[i]);
    var e := Handle(i, 0, false);
    assert x in Step(s, e).timeoutActionMap;
    assert Run(Step(s, e), []) == Step(s, e);
    assert Run(s, [e]) == Step(s, e);
    assert NoAdds([e], x);
  }

  lemma HandleStaysGone(s: State, m: Msg, now: int, panics: bool, x: Id)
    requires Consistent(s) && Chances(s, x) == 0 && !AddOf(x)(m)
    ensures var t := HandleMsg(s, m, now, panics); Chances(t, x) == 0 && Runs(t, x) == Runs(s, x)
  {
    if m.Expire? && m.id in s.timeoutActionMap {
      CountAppend(s.queue, Add(m.id, m.waitTime, Nil, true), AddOf(x));
      CountAppend(s.runs, m.id, RunOf(x));
    }
  }

  lemma StepStaysGone(s: State, e: Event, x: Id)
    requires Consistent(s) && Chances(s, x) == 0 && !Adds(e, x)
    ensures Chances(Step(s, e), x) == 0 && Runs(Step(s, e), x) == Runs(s, x)
  {
    if e.Submit? {
      CountAppend(s.queue, e.m, AddOf(x));
    } else if e.Handle? && e.i < |s.queue| {
      CountRemove(s.queue, e.i, AddOf(x));
      MessagesKeepConsistent(s, Remove(s.queue, e.i), s.runs);
      HandleStaysGone(s.(queue := Remove(s.queue, e.i)), s.queue[e.i], e.now, e.panics, x);
    } else if e.Fire? && e.i < |s.waiters| {
      var w := s.waiters[e.i];
      CountAppend(s.queue, Expire(w.id, w.waitTime, w.repeat), AddOf(x));
    }
  }

  lemma {:induction false} RunStaysGone(s: State, es: seq<Event>, x: Id)
    requires Consistent(s) && Chances(s, x) == 0 && NoAdds(es, x)
    ensures Chances(Run(s, es), x) == 0 && Runs(Run(s, es), x) == Runs(s, x)
    decreases |es|
  {
    if es != [] {
      StepKeepsConsistent(s, es[0]);
      StepStaysGone(s, es[0], x);
      RunStaysGone(Step(s, es[0]), es[1..], x);
    }
  }

  /** After a handled delete the action can be registered without a new add exactly if an add
      or re-arm is still on its way. */
  lemma DeleteEndsRegistration(s: State, x: Id, now: int)
    requires Consistent(s)
    ensures CanRegister(HandleMsg(s, Del(x), now, false), x) <==> Count(s.queue, AddOf(x)) > 0
  {
    var t := HandleMsg(s, Del(x), now, false);
    HandleKeepsConsistent(s, Del(x), now, false);
    if Count(s.queue, AddOf(x)) > 0 {
      AddCanRegister(t, x);
    } else if CanRegister(t, x) {
      var es :| NoAdds(es, x) && x in Run(t, es).timeoutActionMap;
      RunStaysGone(t, es, x);
    }
  }

  lemma ExecuteSends(s: State, id: Id, waitTime: int, repeat: bool, panics: bool)
    ensures Execute(s, id, waitTime, repeat, panics).queue ==
      (if id in s.timeoutActionMap then Rearm(s, id, waitTime, repeat) else s).queue
  {
  }

  lemma HandleQueuesNoAdds(s: State, m: Msg, now: int, panics: bool, x: Id)
    requires m.Expire? && m.id == x ==> !m.repeat
    ensures Count(HandleMsg(s, m, now, panics).queue, AddOf(x)) == Count(s.queue, AddOf(x))
  {
    if m.Expire? {
      RearmSpendsNothing(s, m.id, m.waitTime, m.repeat, x);
      ExecuteSends(s, m.id, m.waitTime, m.repeat, panics);
    }
  }

  /** Only an add event puts an add of a one-shot action on its way. */
  lemma StepQueuesAdds(s: State, e: Event, x: Id)
    requires OneShot(s, x)
    ensures Count(Step(s, e).queue, AddOf(x)) <= Count(s.queue, AddOf(x)) + One(Adds(e, x))
    ensures e.Handle? && e.i < |s.queue| && AddOf(x)(s.queue[e.i]) ==>
      Count(Step(s, e).queue, AddOf(x)) < Count(s.queue, AddOf(x))
  {
    if e.Submit? {
      CountAppend(s.queue, e.m, AddOf(x));
    } else if e.Handle? && e.i < |s.queue| {
      assert s.queue[e.i] in s.queue;
      CountRemove(s.queue, e.i, AddOf(x));
      HandleQueuesNoAdds(s.(queue := Remove(s.queue, e.i)), s.queue[e.i], e.now, e.panics, x);
    } else if e.Fire? && e.i < |s.waiters| {
      var w := s.waiters[e.i];
      CountAppend(s.queue, Expire(w.id, w.waitTime, w.repeat), AddOf(x));
    }
  }

  lemma {:induction false} RunQueuesAdds(s: State, es: seq<Event>, x: Id)
    requires OneShot(s, x) && forall e | e in es :: RepeatsNot(e, x)
    ensures OneShot(Run(s, es), x) && Count(Run(s, es).queue, AddOf(x)) <= Count(s.queue, AddOf(x)) + AddEvents(es, x)
    decreases |es|
  {
    if es != [] {
      StepKeepsOneShot(s, es[0], x);
      StepQueuesAdds(s, es[0], x);
      RunQueuesAdds(Step(s, es[0]), es[1..], x);
    }
  }

  lemma DeletedIsGone(s: State, del: Event, x: Id)
    requires Count(s.queue, AddOf(x)) == 0
    requires del.Handle? && del.i < |s.queue| && s.queue[del.i] == Del(x)
    ensures Chances(Step(s, del), x) == 0
  {
    CountRemove(s.queue, del.i, AddOf(x));
  }

  lemma NoneAdded(es: seq<Event>, x: Id)
    requires AddEvents(es, x) == 0
    ensures NoAdds(es, x)
  {
    CountZero(es, AddEventOf(x));
    assert forall i | 0 <= i < |es| :: !AddEventOf(x)(es[i]);
  }

  lemma AddLeavesNone(before: seq<Event>, add: Event, between: seq<Event>, x: Id)
    requires forall e | e in before + between :: RepeatsNot(e, x)
    requires AddEvents(before, x) + AddEvents(between, x) <= 1
    requires var s := Run(INITIAL, before); add.Handle? && add.i < |s.queue| && AddOf(x)(s.queue[add.i])
    ensures Count(Run(Step(Run(INITIAL, before), add), between).queue, AddOf(x)) == 0
  {
    var s := Run(INITIAL, before);
    RunQueuesAdds(INITIAL, before, x);
    StepQueuesAdds(s, add, x);
    StepKeepsOneShot(s, add, x);
    RunQueuesAdds(Step(s, add), between, x);
  }

  /** A one-shot action added once: when a delete is handled after the add was, the action
      never runs again and is never registered again, whatever expiries, pauses and resumes
      are still on their way. `before` leads to the add, `between` to the delete. */
  lemma DeletedOnceIsOver(before: seq<Event>, add: Event, between: seq<Event>, del: Event, after: seq<Event>, x: Id)
    requires forall e | e in before + between + after :: RepeatsNot(e, x)
    requires AddEvents(before, x) + AddEvents(between, x) + AddEvents(after, x) <= 1
    requires var s := Run(INITIAL, before); add.Handle? && add.i < |s.queue| && AddOf(x)(s.queue[add.i])
    requires var s := Run(INITIAL, before + [add] + between);
      del.Handle? && del.i < |s.queue| && s.queue[del.i] == Del(x)
    ensures var s := Run(INITIAL, before + [add] + between + [del]);
      && Runs(Run(s, after), x) == Runs(s, x)
      && x !in Run(s, after).timeoutActionMap
  {
    var s1 := Run(INITIAL, before);
    var s3 := Run(Step(s1, add), between);
    RunOneMore(INITIAL, before, add);
    RunAppend(INITIAL, before + [add], between);
    RunOneMore(INITIAL, before + [add] + between, del);
    AddLeavesNone(before, add, between, x);
    assert NoAdds(after, x) by {
      RunQueuesAdds(INITIAL, before, x);
      CountZero(s1.queue, AddOf(x));
      NoneAdded(after, x);
    }
    RunKeepsConsistent(INITIAL, before + [add] + between);
    StepKeepsConsistent(s3, del);
    DeletedIsGone(s3, del, x);
    RunStaysGone(Step(s3, del), after, x);
  }
}
