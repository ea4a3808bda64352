/** Repeating actions: the single token that keeps one alive, and what happens when a delete
    overtakes the message that re-arms it. */
module RepeatingTimers {
  import opened Counting
  import opened TimeoutActions
  import opened OneShotTimers

  function ExpireOf(x: Id): Msg -> bool {
    (m: Msg) => m.Expire? && m.id == x
  }

  function WaiterOf(x: Id): Waiter -> bool {
    (w: Waiter) => w.id == x
  }

  /** Adds and re-arms on their way, armed waiters, and expiries on their way. */
  function Tokens(s: State, x: Id): nat {
    Count(s.queue, AddOf(x)) + Count(s.waiters, WaiterOf(x)) + Count(s.queue, ExpireOf(x))
  }

  ghost predicate ShapedMsg(s: State, m: Msg, f: Action, wait: int) {
    && (m.Add? || m.Expire?) && m.repeat && m.waitTime == wait
    && (m.id in s.timeoutActionMap || (m.Add? && m.action == f))
  }

  ghost predicate ShapedWaiter(s: State, w: Waiter, wait: int) {
    w.repeat && w.waitTime == wait && w.id in s.delTimeoutAction && w.cancel == s.delTimeoutAction[w.id]
  }

  /** Everything on its way about `x` repeats it with wait `wait`; once it is registered its
      handler is `f` and its waiter listens to its own cancel channel. */
  ghost predicate Shaped(s: State, x: Id, f: Action, wait: int) {
    && (forall m | m in s.queue && m.id == x :: ShapedMsg(s, m, f, wait))
    && (forall w | w in s.waiters && w.id == x :: ShapedWaiter(s, w, wait))
    && (x in s.timeoutActionMap ==> s.timeoutActionMap[x] == f)
    && x !in s.pauseTimerEvent
  }

  ghost predicate Repeating(s: State, x: Id, f: Action, wait: int) {
    Shaped(s, x, f, wait) && Tokens(s, x) == 1
  }

  // ----- messages about other actions

  lemma ArmOther(s: State, x: Id, f: Action, wait: int, id: Id, waitTime: int, action: Action, repeat: bool, now: int)
    requires Shaped(s, x, f, wait) && id != x
    ensures var t := Arm(s, id, waitTime, action, repeat, now);
      Shaped(t, x, f, wait) && Tokens(t, x) == Tokens(s, x)
  {
    var t := Arm(s, id, waitTime, action, repeat, now);
    if !(id in s.timeoutActionMap && !repeat) {
      CountAppend(s.waiters, t.waiters[|s.waiters|], WaiterOf(x));
    }
  }

  lemma UnregisterOther(s: State, x: Id, f: Action, wait: int, id: Id)
    requires Shaped(s, x, f, wait) && id != x
    ensures Shaped(Unregister(s, id), x, f, wait) && Tokens(Unregister(s, id), x) == Tokens(s, x)
  {
  }

  lemma QueueOther(s: State, x: Id, f: Action, wait: int, m: Msg)
    requires Shaped(s, x, f, wait) && m.id != x
    ensures var t := s.(queue := s.queue + [m]); Shaped(t, x, f, wait) && Tokens(t, x) == Tokens(s, x)
  {
    CountAppend(s.queue, m, AddOf(x));
    CountAppend(s.queue, m, ExpireOf(x));
  }

  lemma ExecuteOther(
    s: State, x: Id, f: Action, wait: int, id: Id, waitTime: int, repeat: bool, panics: bool)
    requires Shaped(s, x, f, wait) && id != x
    ensures var t := Execute(s, id, waitTime, repeat, panics);
      Shaped(t, x, f, wait) && Tokens(t, x) == Tokens(s, x)
  {
    if id in s.timeoutActionMap {
      QueueOther(s, x, f, wait, Add(id, waitTime, Nil, true));
      var t := Rearm(s, id, waitTime, repeat);
      UnregisterOther(t.(runs := t.runs + [id]), x, f, wait, id);
    } else {
      UnregisterOther(s, x, f, wait, id);
    }
  }

  lemma ResumeOther(s: State, x: Id, f: Action, wait: int, id: Id, now: int)
    requires Shaped(s, x, f, wait) && id != x && id in s.pauseTimerEvent
    ensures var t := Reactivate(s, id, now); Shaped(t, x, f, wait) && Tokens(t, x) == Tokens(s, x)
  {
    var info := s.pauseTimerEvent[id];
    var t := s.(pauseTimerEvent := s.pauseTimerEvent - {id});
    ArmOther(t, x, f, wait, id, Remaining(info), info.action, false, now);
  }

  lemma PauseOther(s: State, x: Id, f: Action, wait: int, id: Id, now: int)
    requires Shaped(s, x, f, wait) && id != x
    ensures var t := HandleMsg(s, Pause(id), now, false); Shaped(t, x, f, wait) && Tokens(t, x) == Tokens(s, x)
  {
    UnregisterOther(if id in s.timerInfo then SetAside(s, id, now) else s, x, f, wait, id);
  }

  lemma DeleteOther(s: State, x: Id, f: Action, wait: int, id: Id, now: int)
    requires Shaped(s, x, f, wait) && id != x
    ensures var t := HandleMsg(s, Del(id), now, false); Shaped(t, x, f, wait) && Tokens(t, x) == Tokens(s, x)
  {
    UnregisterOther(s, x, f, wait, id);
  }

  lemma HandleOther(s: State, x: Id, f: Action, wait: int, m: Msg, now: int, panics: bool)
    requires Consistent(s) && Shaped(s, x, f, wait) && m.id != x
    ensures var t := HandleMsg(s, m, now, panics); Shaped(t, x, f, wait) && Tokens(t, x) == Tokens(s, x)
  {
    match m
    case Add(id, waitTime, action, repeat) => ArmOther(s, x, f, wait, id, waitTime, action, repeat, now);
    case Resume(id) => if id in s.pauseTimerEvent { ResumeOther(s, x, f, wait, id, now); }
    case Expire(id, waitTime, repeat) => ExecuteOther(s, x, f, wait, id, waitTime, repeat, panics);
    case Pause(id) => PauseOther(s, x, f, wait, id, now);
    case Del(id) => DeleteOther(s, x, f, wait, id, now);
  }

  // ----- the action's own messages

  lemma NoTokens(s: State, x: Id)
    requires Tokens(s, x) == 0
    ensures forall m | m in s.queue :: !((m.Add? || m.Expire?) && m.id == x)
    ensures forall w | w in s.waiters :: w.id != x
  {
    CountZero(s.queue, AddOf(x));
    CountZero(s.queue, ExpireOf(x));
    CountZero(s.waiters, WaiterOf(x));
    assert forall i | 0 <= i < |s.queue| :: !AddOf(x)(s.queue[i]) && !ExpireOf(x)(s.queue[i]);
    assert forall i | 0 <= i < |s.waiters| :: !WaiterOf(x)(s.waiters[i]);
  }

  /** Handling the add or re-arm turns the token into an armed waiter. */
  lemma OwnAdd(s: State, x: Id, f: Action, wait: int, m: Msg, now: int)
    requires Consistent(s) && Shaped(s, x, f, wait) && Tokens(s, x) == 0
    requires m.Add? && m.id == x && ShapedMsg(s, m, f, wait)
    ensures Repeating(HandleMsg(s, m, now, false), x, f, wait)
  {
    NoTokens(s, x);
    var t := HandleMsg(s, m, now, false);
    CountAppend(s.waiters, t.waiters[|s.waiters|], WaiterOf(x));
  }

  /** Handling the expiry turns the token into a re-arm message and runs the handler, if there
      is one. */
  lemma OwnExpire(s: State, x: Id, f: Action, wait: int, m: Msg, now: int, panics: bool)
    requires Shaped(s, x, f, wait) && Tokens(s, x) == 0
    requires m.Expire? && m.id == x && ShapedMsg(s, m, f, wait)
    ensures Repeating(HandleMsg(s, m, now, panics), x, f, wait)
    ensures HandleMsg(s, m, now, panics).runs == if f.Fn? then s.runs + [x] else s.runs
  {
    var rearm := Add(x, wait, Nil, true);
    CountAppend(s.queue, rearm, AddOf(x));
    CountAppend(s.queue, rearm, ExpireOf(x));
  }

  lemma FireKeepsRepeating(s: State, x: Id, f: Action, wait: int, i: nat)
    requires Consistent(s) && Repeating(s, x, f, wait) && i < |s.waiters|
    ensures Repeating(Step(s, Fire(i)), x, f, wait)
  {
    var w := s.waiters[i];
    assert w in s.waiters;
    var m := Expire(w.id, w.waitTime, w.repeat);
    CountRemove(s.waiters, i, WaiterOf(x));
    CountAppend(s.queue, m, AddOf(x));
    CountAppend(s.queue, m, ExpireOf(x));
  }

  /** A registered action's cancel channel is open, so its waiter cannot give up. */
  lemma CancelKeepsRepeating(s: State, x: Id, f: Action, wait: int, i: nat)
    requires Consistent(s) && Repeating(s, x, f, wait) && i < |s.waiters|
    ensures Repeating(Step(s, Cancel(i)), x, f, wait)
  {
    var w := s.waiters[i];
    assert w in s.waiters;
    CountRemove(s.waiters, i, WaiterOf(x));
  }

  lemma HandleKeepsRepeating(s: State, x: Id, f: Action, wait: int, i: nat, now: int, panics: bool)
    requires Consistent(s) && Repeating(s, x, f, wait) && i < |s.queue|
    ensures Repeating(Step(s, Handle(i, now, panics)), x, f, wait)
  {
    var m := s.queue[i];
    assert m in s.queue;
    CountRemove(s.queue, i, AddOf(x));
    CountRemove(s.queue, i, ExpireOf(x));
    var t := s.(queue := Remove(s.queue, i));
    assert Consistent(t) && Shaped(t, x, f, wait);
    if m.id != x {
      HandleOther(t, x, f, wait, m, now, panics);
    } else if m.Add? {
      OwnAdd(t, x, f, wait, m, now);
    } else {
      OwnExpire(t, x, f, wait, m, now, panics);
    }
  }

  lemma StepKeepsRepeating(s: State, x: Id, f: Action, wait: int, e: Event)
    requires Consistent(s) && Repeating(s, x, f, wait) && LeavesAlone(e, x)
    ensures Repeating(Step(s, e), x, f, wait)
  {
    match e
    case Submit(m) => QueueOther(s, x, f, wait, m);
    case Handle(i, now, panics) => if i < |s.queue| { HandleKeepsRepeating(s, x, f, wait, i, now, panics); }
    case Fire(i) => if i < |s.waiters| { FireKeepsRepeating(s, x, f, wait, i); }
    case Cancel(i) => if i < |s.waiters| { CancelKeepsRepeating(s, x, f, wait, i); }
  }

  lemma {:induction false} RunKeepsRepeating(s: State, x: Id, f: Action, wait: int, es: seq<Event>)
    requires Consistent(s) && Repeating(s, x, f, wait) && forall e | e in es :: LeavesAlone(e, x)
    ensures Repeating(Run(s, es), x, f, wait)
    decreases |es|
  {
    if es != [] {
      StepKeepsConsistent(s, es[0]);
      StepKeepsRepeating(s, x, f, wait, es[0]);
      RunKeepsRepeating(Step(s, es[0]), x, f, wait, es[1..]);
    }
  }

  lemma AddIsRepeating(s: State, x: Id, f: Action, wait: int)
    requires Untouched(s, x)
    ensures Repeating(Step(s, Submit(Add(x, wait, f, true))), x, f, wait)
  {
    var add := Add(x, wait, f, true);
    CountZero(s.queue, AddOf(x));
    CountZero(s.queue, ExpireOf(x));
    CountZero(s.waiters, WaiterOf(x));
    assert forall i | 0 <= i < |s.queue| :: s.queue[i] in s.queue;
    assert forall i | 0 <= i < |s.waiters| :: s.waiters[i] in s.waiters;
    CountAppend(s.queue, add, AddOf(x));
    CountAppend(s.queue, add, ExpireOf(x));
  }

  /** A repeating action, with a handler or without, added once and otherwise left alone,
      whatever else the service does before and after, always has exactly one token: the add or
      re-arm on its way, the armed waiter, or the expiry on its way. Nothing is lost or doubled,
      even when the handler panics. */
  lemma RepeatingHasOneToken(before: seq<Event>, x: Id, f: Action, wait: int, after: seq<Event>)
    requires forall e | e in before + after :: LeavesAlone(e, x)
    ensures Tokens(Run(INITIAL, before + [Submit(Add(x, wait, f, true))] + after), x) == 1
  {
    var add := Submit(Add(x, wait, f, true));
    var s := Run(INITIAL, before);
    RunKeepsConsistent(INITIAL, before);
    RunKeepsUntouched(INITIAL, before, x);
    RunOneMore(INITIAL, before, add);
    RunAppend(INITIAL, before + [add], after);
    StepKeepsConsistent(s, add);
    AddIsRepeating(s, x, f, wait);
    RunKeepsRepeating(Step(s, add), x, f, wait, after);
  }

  // ----- a delete that overtakes the re-arm

  lemma ExpiredThenDeleted() returns (es: seq<Event>, s: State)
    ensures s == Run(INITIAL, es) && s.runs == ["a"] && s.waiters == [] && s.nextChan == 1
    ensures s.queue == [Del("a"), Add("a", 10, Nil, true)]
  {
    es, s := Extend([], INITIAL, Submit(Add("a", 10, Fn(1), true)));
    es, s := Take(es, s, 0, false);
    assert s.waiters == [Waiter("a", 0, 10, true)] && s.queue == [];
    es, s := Extend(es, s, Fire(0));
    es, s := Extend(es, s, Submit(Del("a")));
    assert s.queue == [Expire("a", 10, true), Del("a")];
    es, s := Take(es, s, 10, false);
  }

  lemma DeleteTaken() returns (es: seq<Event>, s: State)
    ensures s == Run(INITIAL, es) && s.runs == ["a"] && s.waiters == [] && s.nextChan == 1
    ensures s.queue == [Add("a", 10, Nil, true)] && "a" !in s.timeoutActionMap
  {
    es, s := ExpiredThenDeleted();
    es, s := Take(es, s, 11, false);
  }

  /** A run, with every message handled in the order sent, in which a delete does not stop a
      repeating action: sent while the expiry was on its way, it is handled before the re-arm,
      which registers the action again, now without a handler, and arms its timer. */
  lemma DeleteOvertakesRearm() returns (es: seq<Event>)
    ensures var s := Run(INITIAL, es);
      && s.runs == ["a"] && s.queue == []
      && "a" in s.timeoutActionMap && s.timeoutActionMap["a"] == Nil
      && s.waiters == [Waiter("a", 1, 10, true)]
  {
    var s;
    es, s := DeleteTaken();
    es, s := Take(es, s, 12, false);
  }
}
