/** Pausing and resuming: what happens to the remaining time, and to an expiry that was
    already on its way. */
module PausedTime {
  import opened Counting
  import opened TimeoutActions
  import opened OneShotTimers
  import opened HandlerRuns

  // ----- pausing conserves time

  /** The waiter of a registered action waits for the recorded time. */
  ghost predicate OwnWaits(s: State, x: Id) {
    forall w | w in s.waiters && x in s.timerInfo && x in s.delTimeoutAction && w.cancel == s.delTimeoutAction[x] ::
      w.id == x && w.waitTime == s.timerInfo[x].waitTime
  }

  /** For an action added once with wait `total`: the wait of its armed timer, or what is
      left of a paused one, plus the time its waiters were armed before its pauses, is the
      wait it was added with. The recorded start is when its waiter was really armed. */
  ghost predicate Accounted(s: State, x: Id, total: int) {
    && Chances(s, x) <= 1
    && (forall m | m in s.queue && AddOf(x)(m) :: m.waitTime == total && RanFor(s, x) == 0)
    && (x in s.timerInfo ==>
          s.timerInfo[x].waitTime + RanFor(s, x) == total && s.timerInfo[x].startTime == ArmedAt(s, x))
    && (x in s.pauseTimerEvent ==> Remaining(s.pauseTimerEvent[x]) + RanFor(s, x) == total)
    && OwnWaits(s, x)
  }

  lemma ArmKeepsOwnWaits(s: State, x: Id, id: Id, waitTime: int, action: Action, repeat: bool, now: int)
    requires Consistent(s) && OwnWaits(s, x) && (id == x ==> !repeat)
    ensures OwnWaits(Arm(s, id, waitTime, action, repeat, now), x)
  {
  }

  lemma ArmKeepsAccounted(
    s: State, x: Id, total: int, id: Id, waitTime: int, action: Action, repeat: bool, now: int)
    requires Consistent(s) && Accounted(s, x, total)
    requires id == x ==> !repeat
    requires id == x && x !in s.timeoutActionMap ==> Chances(s, x) == 0 && waitTime + RanFor(s, x) == total
    ensures Accounted(Arm(s, id, waitTime, action, repeat, now), x, total)
  {
    ArmKeepsOwnWaits(s, x, id, waitTime, action, repeat, now);
  }

  /** Registrations may go, and nothing else about `x` changes. */
  predicate OnlyForgets(s: State, t: State, x: Id) {
    && t.queue == s.queue && t.waiters == s.waiters && t.pauseTimerEvent == s.pauseTimerEvent
    && t.ran == s.ran && t.armedAt == s.armedAt
    && (x in t.timeoutActionMap ==> x in s.timeoutActionMap)
    && (x in t.timerInfo ==> x in s.timerInfo && t.timerInfo[x] == s.timerInfo[x])
    && (x in t.delTimeoutAction ==> x in s.delTimeoutAction && t.delTimeoutAction[x] == s.delTimeoutAction[x])
  }

  lemma ForgettingKeepsAccounted(s: State, t: State, x: Id, total: int)
    requires Accounted(s, x, total) && OnlyForgets(s, t, x)
    ensures Accounted(t, x, total)
  {
  }

  lemma UnregisterForgets(s: State, id: Id, x: Id)
    ensures OnlyForgets(s, Unregister(s, id), x)
  {
  }

  lemma UnregisterKeepsAccounted(s: State, x: Id, total: int, id: Id)
    requires Accounted(s, x, total)
    ensures Accounted(Unregister(s, id), x, total)
  {
    UnregisterForgets(s, id, x);
    ForgettingKeepsAccounted(s, Unregister(s, id), x, total);
  }

  lemma NoAddQueued(s: State, x: Id)
    requires Count(s.queue, AddOf(x)) == 0
    ensures forall m | m in s.queue :: !AddOf(x)(m)
  {
    CountZero(s.queue, AddOf(x));
    assert forall i | 0 <= i < |s.queue| :: !AddOf(x)(s.queue[i]);
  }

  /** What the pause takes off the remaining time is what it adds to the time run. */
  lemma PauseKeepsAccounted(s: State, x: Id, total: int, id: Id, now: int)
    requires Consistent(s) && Accounted(s, x, total) && id in s.timerInfo
    ensures Accounted(Unregister(SetAside(s, id, now), id), x, total)
  {
    if id == x {
      assert x in s.timeoutActionMap;
      NoAddQueued(s, x);
      assert RanFor(SetAside(s, x, now), x) == RanFor(s, x) + (now - s.timerInfo[x].startTime);
    } else {
      assert Accounted(SetAside(s, id, now), x, total);
      UnregisterKeepsAccounted(SetAside(s, id, now), x, total, id);
    }
  }

  lemma RearmKeepsAccounted(s: State, x: Id, total: int, id: Id, waitTime: int, repeat: bool)
    requires Accounted(s, x, total) && (id == x ==> !repeat)
    ensures Accounted(Rearm(s, id, waitTime, repeat), x, total)
  {
    RearmSpendsNothing(s, id, waitTime, repeat, x);
  }

  lemma ExecuteKeepsAccounted(
    s: State, x: Id, total: int, id: Id, waitTime: int, repeat: bool, panics: bool)
    requires Accounted(s, x, total) && (id == x ==> !repeat)
    ensures Accounted(Execute(s, id, waitTime, repeat, panics), x, total)
  {
    if id !in s.timeoutActionMap {
      UnregisterKeepsAccounted(s, x, total, id);
    } else {
      var t := Rearm(s, id, waitTime, repeat);
      RearmKeepsAccounted(s, x, total, id, waitTime, repeat);
      var u := t.(runs := t.runs + [id]);
      assert Accounted(u, x, total);
      UnregisterKeepsAccounted(u, x, total, id);
    }
  }

  lemma ResumeKeepsAccounted(s: State, x: Id, total: int, id: Id, now: int)
    requires Consistent(s) && Accounted(s, x, total) && id in s.pauseTimerEvent
    ensures Accounted(Reactivate(s, id, now), x, total)
  {
    var info := s.pauseTimerEvent[id];
    var t := s.(pauseTimerEvent := s.pauseTimerEvent - {id});
    assert Consistent(t) && Accounted(t, x, total);
    ArmKeepsAccounted(t, x, total, id, Remaining(info), info.action, false, now);
  }

  lemma DeleteKeepsAccounted(s: State, x: Id, total: int, id: Id)
    requires Accounted(s, x, total)
    ensures Accounted(Unregister(s, id).(pauseTimerEvent := s.pauseTimerEvent - {id}), x, total)
  {
    UnregisterKeepsAccounted(s, x, total, id);
  }

  lemma HandleKeepsAccounted(s: State, x: Id, total: int, m: Msg, now: int, panics: bool)
    requires Consistent(s) && Accounted(s, x, total) && ((m.Add? || m.Expire?) && m.id == x ==> !m.repeat)
    requires AddOf(x)(m) ==> Chances(s, x) == 0 && m.waitTime == total && RanFor(s, x) == 0
    ensures Accounted(HandleMsg(s, m, now, panics), x, total)
  {
    match m
    case Add(id, waitTime, action, repeat) => ArmKeepsAccounted(s, x, total, id, waitTime, action, repeat, now);
    case Del(id) => DeleteKeepsAccounted(s, x, total, id);
    case Expire(id, waitTime, repeat) => ExecuteKeepsAccounted(s, x, total, id, waitTime, repeat, panics);
    case Pause(id) =>
      if id in s.timerInfo {
        PauseKeepsAccounted(s, x, total, id, now);
      } else {
        UnregisterKeepsAccounted(s, x, total, id);
      }
    case Resume(id) =>
      if id in s.pauseTimerEvent {
        ResumeKeepsAccounted(s, x, total, id, now);
      }
  }

  /** Taking a message out of the queue. */
  lemma TakenKeepsAccounted(s: State, x: Id, total: int, i: nat)
    requires OneShot(s, x) && Accounted(s, x, total) && i < |s.queue|
    ensures var t, m := s.(queue := Remove(s.queue, i)), s.queue[i];
      && Accounted(t, x, total)
      && ((m.Add? || m.Expire?) && m.id == x ==> !m.repeat)
      && (AddOf(x)(m) ==> Chances(t, x) == 0 && m.waitTime == total && RanFor(t, x) == 0)
  {
    CountRemove(s.queue, i, AddOf(x));
    assert s.queue[i] in s.queue && forall m | m in Remove(s.queue, i) :: m in s.queue;
  }

  /** Sending a message other than an add of the action. */
  lemma SentKeepsAccounted(s: State, x: Id, total: int, m: Msg)
    requires Accounted(s, x, total) && !AddOf(x)(m)
    ensures Accounted(s.(queue := s.queue + [m]), x, total)
  {
    CountAppend(s.queue, m, AddOf(x));
  }

  lemma WaiterGoneKeepsAccounted(s: State, x: Id, total: int, i: nat)
    requires Accounted(s, x, total) && i < |s.waiters|
    ensures Accounted(s.(waiters := Remove(s.waiters, i)), x, total)
  {
    assert forall w | w in Remove(s.waiters, i) :: w in s.waiters;
  }

  lemma StepKeepsAccounted(s: State, x: Id, total: int, e: Event)
    requires Consistent(s) && OneShot(s, x) && Accounted(s, x, total) && !Adds(e, x)
    ensures Accounted(Step(s, e), x, total)
  {
    match e
    case Submit(m) => SentKeepsAccounted(s, x, total, m);
    case Handle(i, now, panics) =>
      if i < |s.queue| {
        TakenKeepsAccounted(s, x, total, i);
        MessagesKeepConsistent(s, Remove(s.queue, i), s.runs);
        HandleKeepsAccounted(s.(queue := Remove(s.queue, i)), x, total, s.queue[i], now, panics);
      }
    case Fire(i) =>
      if i < |s.waiters| {
        var w := s.waiters[i];
        WaiterGoneKeepsAccounted(s, x, total, i);
        SentKeepsAccounted(s.(waiters := Remove(s.waiters, i)), x, total, Expire(w.id, w.waitTime, w.repeat));
      }
    case Cancel(i) =>
      if i < |s.waiters| {
        WaiterGoneKeepsAccounted(s, x, total, i);
      }
  }

  lemma {:induction false} RunKeepsAccounted(s: State, x: Id, total: int, es: seq<Event>)
    requires Consistent(s) && OneShot(s, x) && Accounted(s, x, total) && NoAdds(es, x)
    ensures Accounted(Run(s, es), x, total)
    decreases |es|
  {
    if es != [] {
      StepKeepsConsistent(s, es[0]);
      StepKeepsOneShot(s, es[0], x);
      StepKeepsAccounted(s, x, total, es[0]);
      RunKeepsAccounted(Step(s, es[0]), x, total, es[1..]);
    }
  }

  lemma AddIsAccounted(s: State, x: Id, total: int, action: Action)
    requires Consistent(s) && Untouched(s, x)
    ensures var t := Step(s, Submit(Add(x, total, action, false))); OneShot(t, x) && Accounted(t, x, total)
  {
    CountZero(s.queue, AddOf(x));
    assert forall i | 0 <= i < |s.queue| :: s.queue[i] in s.queue;
    CountAppend(s.queue, Add(x, total, action, false), AddOf(x));
  }

  /** Pausing and resuming conserve time: in every run in which a one-shot action is added
      once, whatever else the service does before and after, the wait now armed plus the time
      its waiters were armed before its pauses is the original wait, and its recorded start is
      when its present waiter was armed; while paused the same holds of what is left. */
  lemma PausesConserveTime(before: seq<Event>, x: Id, total: int, action: Action, after: seq<Event>)
    requires (forall e | e in before :: LeavesAlone(e, x)) && NoAdds(after, x)
    ensures var s := Run(INITIAL, before + [Submit(Add(x, total, action, false))] + after);
      && (x in s.timerInfo ==>
            s.timerInfo[x].waitTime + RanFor(s, x) == total && s.timerInfo[x].startTime == ArmedAt(s, x))
      && (x in s.pauseTimerEvent ==> Remaining(s.pauseTimerEvent[x]) + RanFor(s, x) == total)
      && OwnWaits(s, x)
  {
    var add := Submit(Add(x, total, action, false));
    var s := Run(INITIAL, before);
    RunKeepsConsistent(INITIAL, before);
    RunKeepsUntouched(INITIAL, before, x);
    RunOneMore(INITIAL, before, add);
    RunAppend(INITIAL, before + [add], after);
    StepKeepsConsistent(s, add);
    AddIsAccounted(s, x, total, action);
    RunKeepsAccounted(Step(s, add), x, total, after);
  }

  // ----- expiries from before the pause

  /** The step handles neither an add nor a resume of `x`, and does not fire the waiter of `x`
      that listens on channel `ch`. */
  predicate Quiet(s: State, e: Event, x: Id, ch: int) {
    match e
    case Handle(i, _, _) => i < |s.queue| ==> !((s.queue[i].Add? || s.queue[i].Resume?) && s.queue[i].id == x)
    case Fire(i) => i < |s.waiters| ==> !(s.waiters[i].id == x && s.waiters[i].cancel == ch)
    case _ => true
  }

  predicate QuietRun(s: State, es: seq<Event>, x: Id, ch: int)
    decreases |es|
  {
    es == [] || (Quiet(s, es[0], x, ch) && QuietRun(Step(s, es[0]), es[1..], x, ch))
  }

  /** Some continuation starts the handler of `x` although no add or resume of it is handled
      and the waiter on channel `ch` does not fire. */
  ghost predicate RunsWithout(s: State, x: Id, ch: int) {
    exists es :: QuietRun(s, es, x, ch) && Runs(Run(s, es), x) > Runs(s, x)
  }

  predicate ExpiryPending(s: State, x: Id) {
    exists m | m in s.queue :: m.Expire? && m.id == x
  }

  /** No expiry of `x` is on its way, and its only waiters listen on channel `ch`. */
  ghost predicate OnlyOn(s: State, x: Id, ch: int) {
    !ExpiryPending(s, x) && forall w | w in s.waiters && w.id == x :: w.cancel == ch
  }

  lemma QueueKeepsOnlyOn(s: State, m: Msg, x: Id, ch: int)
    requires OnlyOn(s, x, ch) && !(m.Expire? && m.id == x)
    ensures OnlyOn(s.(queue := s.queue + [m]), x, ch)
  {
  }

  lemma ArmKeepsOnlyOn(
    s: State, id: Id, waitTime: int, action: Action, repeat: bool, now: int, x: Id, ch: int)
    requires OnlyOn(s, x, ch) && id != x
    ensures var t := Arm(s, id, waitTime, action, repeat, now); OnlyOn(t, x, ch) && t.runs == s.runs
  {
  }

  lemma ExecuteKeepsOnlyOn(s: State, id: Id, waitTime: int, repeat: bool, panics: bool, x: Id, ch: int)
    requires OnlyOn(s, x, ch) && id != x
    ensures var t := Execute(s, id, waitTime, repeat, panics); OnlyOn(t, x, ch) && Runs(t, x) == Runs(s, x)
  {
    CountAppend(s.runs, id, RunOf(x));
    if id in s.timeoutActionMap {
      QueueKeepsOnlyOn(s, Add(id, waitTime, Nil, true), x, ch);
      assert OnlyOn(Rearm(s, id, waitTime, repeat), x, ch);
    }
  }

  lemma HandleKeepsOnlyOn(s: State, m: Msg, now: int, panics: bool, x: Id, ch: int)
    requires OnlyOn(s, x, ch) && !((m.Add? || m.Resume? || m.Expire?) && m.id == x)
    ensures var t := HandleMsg(s, m, now, panics); OnlyOn(t, x, ch) && Runs(t, x) == Runs(s, x)
  {
    match m
    case Add(id, waitTime, action, repeat) => ArmKeepsOnlyOn(s, id, waitTime, action, repeat, now, x, ch);
    case Resume(id) =>
      if id in s.pauseTimerEvent {
        var info := s.pauseTimerEvent[id];
        var t := s.(pauseTimerEvent := s.pauseTimerEvent - {id});
        ArmKeepsOnlyOn(t, id, Remaining(info), info.action, false, now, x, ch);
      }
    case Expire(id, waitTime, repeat) => ExecuteKeepsOnlyOn(s, id, waitTime, repeat, panics, x, ch);
    case _ =>
  }

  lemma WaiterStepKeepsOnlyOn(s: State, e: Event, x: Id, ch: int)
    requires OnlyOn(s, x, ch) && Quiet(s, e, x, ch) && (e.Fire? || e.Cancel?) && e.i < |s.waiters|
    ensures OnlyOn(Step(s, e), x, ch)
  {
    var w := s.waiters[e.i];
    var t := s.(waiters := Remove(s.waiters, e.i));
    assert w in s.waiters && forall v | v in t.waiters :: v in s.waiters;
    if e.Fire? {
      QueueKeepsOnlyOn(t, Expire(w.id, w.waitTime, w.repeat), x, ch);
    }
  }

  lemma StepKeepsOnlyOn(s: State, e: Event, x: Id, ch: int)
    requires OnlyOn(s, x, ch) && Quiet(s, e, x, ch)
    ensures OnlyOn(Step(s, e), x, ch) && Runs(Step(s, e), x) == Runs(s, x)
  {
    if e.Submit? && !e.m.Expire? {
      QueueKeepsOnlyOn(s, e.m, x, ch);
    } else if e.Handle? && e.i < |s.queue| {
      var t := s.(queue := Remove(s.queue, e.i));
      assert s.queue[e.i] in s.queue && forall m | m in t.queue :: m in s.queue;
      HandleKeepsOnlyOn(t, s.queue[e.i], e.now, e.panics, x, ch);
    } else if (e.Fire? || e.Cancel?) && e.i < |s.waiters| {
      WaiterStepKeepsOnlyOn(s, e, x, ch);
    }
  }

  lemma {:induction false} OnlyOnNeverRuns(s: State, es: seq<Event>, x: Id, ch: int)
    requires OnlyOn(s, x, ch) && QuietRun(s, es, x, ch)
    ensures Runs(Run(s, es), x) == Runs(s, x)
    decreases |es|
  {
    if es != [] {
      StepKeepsOnlyOn(s, es[0], x, ch);
      OnlyOnNeverRuns(Step(s, es[0]), es[1..], x, ch);
    }
  }

  lemma ExpiryRuns(s: State, i: nat, x: Id)
    requires x in s.timeoutActionMap && s.timeoutActionMap[x].Fn?
    requires i < |s.queue| && s.queue[i].Expire? && s.queue[i].id == x
    ensures Runs(Step(s, Handle(i, 0, false)), x) == Runs(s, x) + 1
  {
    CountAppend(s.runs, x, RunOf(x));
    assert Step(s, Handle(i, 0, false)).runs == s.runs + [x];
  }

  lemma PendingRunsWithout(s: State, x: Id, ch: int)
    requires x in s.timeoutActionMap && s.timeoutActionMap[x].Fn? && ExpiryPending(s, x)
    ensures RunsWithout(s, x, ch)
  {
    var i :| 0 <= i < |s.queue| && s.queue[i].Expire? && s.queue[i].id == x;
    var e := Handle(i, 0, false);
    ExpiryRuns(s, i, x);
    assert Run(Step(s, e), []) == Step(s, e);
    assert Run(s, [e]) == Step(s, e);
    assert QuietRun(s, [e], x, ch);
  }

  lemma WaiterRunsWithout(s: State, x: Id, ch: int, i: nat)
    requires x in s.timeoutActionMap && s.timeoutActionMap[x].Fn?
    requires i < |s.waiters| && s.waiters[i].id == x && s.waiters[i].cancel != ch
    ensures RunsWithout(s, x, ch)
  {
    var e := Fire(i);
    var t := Step(s, e);
    assert t.queue[|s.queue|] in t.queue;
    PendingRunsWithout(t, x, ch);
    var es :| QuietRun(t, es, x, ch) && Runs(Run(t, es), x) > Runs(t, x);
    assert ([e] + es)[1..] == es;
    assert Run(s, [e] + es) == Run(t, es);
    assert QuietRun(s, [e] + es, x, ch);
  }

  /** After a resume has armed its waiter, the handler can run without that waiter, and so
      before the rest of the wait is over, exactly if an expiry from before the pause is still
      on its way or an older waiter is still there to send one. */
  lemma EarlyRunIffStale(s: State, x: Id, now: int)
    requires Consistent(s) && x !in s.timeoutActionMap && PausedWithFunction(s, x)
    ensures RunsWithout(HandleMsg(s, Resume(x), now, false), x, s.nextChan) <==>
      ExpiryPending(s, x) || exists w | w in s.waiters :: w.id == x
  {
    var t := HandleMsg(s, Resume(x), now, false);
    assert t.queue == s.queue && t.waiters[..|s.waiters|] == s.waiters && |t.waiters| == |s.waiters| + 1;
    if ExpiryPending(s, x) {
      PendingRunsWithout(t, x, s.nextChan);
    } else if w :| w in s.waiters && w.id == x {
      var i :| 0 <= i < |s.waiters| && s.waiters[i] == w;
      assert t.waiters[i] == w;
      WaiterRunsWithout(t, x, s.nextChan, i);
    } else if RunsWithout(t, x, s.nextChan) {
      var es :| QuietRun(t, es, x, s.nextChan) && Runs(Run(t, es), x) > Runs(t, x);
      OnlyOnNeverRuns(t, es, x, s.nextChan);
    }
  }

  /** Added and armed at 0; then a pause and a resume are sent, and the waiter fires. */
  lemma PausedAndFired() returns (es: seq<Event>, s: State)
    ensures s == Run(INITIAL, es) && s.runs == []
    ensures s.queue == [Pause("a"), Resume("a"), Expire("a", 10, false)]
    ensures s.timerInfo == map["a" := TimerInfo(0, 0, 10, Fn(1))] && s.timeoutActionMap == map["a" := Fn(1)]
  {
    es, s := Extend([], INITIAL, Submit(Add("a", 10, Fn(1), false)));
    es, s := Take(es, s, 0, false);
    assert s.waiters == [Waiter("a", 0, 10, false)] && s.queue == [];
    es, s := Extend(es, s, Submit(Pause("a")));
    es, s := Extend(es, s, Submit(Resume("a")));
    assert s.queue == [Pause("a"), Resume("a")];
    es, s := Extend(es, s, Fire(0));
  }

  lemma PausedAtFour() returns (es: seq<Event>, s: State)
    ensures s == Run(INITIAL, es) && s.runs == []
    ensures s.queue == [Resume("a"), Expire("a", 10, false)] && "a" !in s.timeoutActionMap
    ensures "a" in s.pauseTimerEvent && s.pauseTimerEvent["a"] == TimerInfo(0, 4, 10, Fn(1))
  {
    es, s := PausedAndFired();
    es, s := Take(es, s, 4, false);
  }

  lemma ResumedAtFive() returns (es: seq<Event>, s: State)
    ensures s == Run(INITIAL, es) && s.runs == [] && s.queue == [Expire("a", 10, false)]
    ensures "a" in s.timeoutActionMap && s.timeoutActionMap["a"] == Fn(1)
    ensures "a" in s.timerInfo && s.timerInfo["a"] == TimerInfo(5, 0, 6, Fn(1))
  {
    es, s := PausedAtFour();
    es, s := Take(es, s, 5, false);
  }

  /** Such a run exists, with every message handled in the order sent: added at time 0 with a
      wait of 10, paused at 4, resumed at 5, the handler runs at 5 with 6 still to wait. */
  lemma StaleExpiryRunsEarly() returns (es: seq<Event>)
    ensures var s := Run(INITIAL, es);
      && "a" in s.timerInfo && s.timerInfo["a"] == TimerInfo(5, 0, 6, Fn(1)) && s.runs == []
      && Step(s, Handle(0, 5, false)).runs == ["a"]
  {
    var s;
    es, s := ResumedAtFive();
  }
}
