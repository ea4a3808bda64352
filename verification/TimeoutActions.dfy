/** Timed actions in the service's main loop. Messages are handled one at a time but arrive
    in any order; each armed timer is a goroutine waiting for its delay or for its cancel
    channel to close. */
module TimeoutActions {
  import opened Counting

  type Id = string

  /** A function to call; a re-arm message carries none. */
  datatype Action = Nil | Fn(name: nat)

  datatype Msg =
    | Add(id: Id, waitTime: int, action: Action, repeat: bool)
    | Del(id: Id)
    | Expire(id: Id, waitTime: int, repeat: bool)
    | Pause(id: Id)
    | Resume(id: Id)

  datatype TimerInfo = TimerInfo(startTime: int, pauseTime: int, waitTime: int, action: Action)

  /** A goroutine waiting to report the expiry of `id`, unless channel `cancel` closes. */
  datatype Waiter = Waiter(id: Id, cancel: int, waitTime: int, repeat: bool)

  datatype State = State(
    timeoutActionMap: map<Id, Action>,
    delTimeoutAction: map<Id, int>,
    timerInfo: map<Id, TimerInfo>,
    pauseTimerEvent: map<Id, TimerInfo>,
    queue: seq<Msg>,          // messages on their way to the main loop
    waiters: seq<Waiter>,
    nextChan: nat,            // cancel channels made so far
    closedChans: set<int>,
    closedTwice: bool,        // a closed channel was closed again
    runs: seq<Id>,            // handlers started, in order
    armedAt: map<Id, int>,    // the clock when each action's latest waiter was armed
    ran: map<Id, int>)        // time each action's waiters were armed before its pauses

  const INITIAL := State(map[], map[], map[], map[], [], [], 0, {}, false, [], map[], map[])

  datatype Event =
    | Submit(m: Msg)
    | Handle(i: nat, now: int, panics: bool)
    | Fire(i: nat)
    | Cancel(i: nat)

  function RanFor(s: State, x: Id): int {
    if x in s.ran then s.ran[x] else 0
  }

  function ArmedAt(s: State, x: Id): int {
    if x in s.armedAt then s.armedAt[x] else 0
  }

  /** Arms a timer for `id`, registering the action first unless it exists; a second
      one-shot registration is ignored. */
  function Arm(s: State, id: Id, waitTime: int, action: Action, repeat: bool, now: int): State {
    if id in s.timeoutActionMap && !repeat then s
    else
      var t := if id in s.timeoutActionMap then s else s.(
        timeoutActionMap := s.timeoutActionMap[id := action],
        delTimeoutAction := s.delTimeoutAction[id := s.nextChan],
        timerInfo := s.timerInfo[id := TimerInfo(now, 0, waitTime, action)],
        nextChan := s.nextChan + 1);
      var cancel := if id in t.delTimeoutAction then t.delTimeoutAction[id] else -1;
      t.(waiters := t.waiters + [Waiter(id, cancel, waitTime, repeat)], armedAt := t.armedAt[id := now])
  }

  /** Unregisters `id` and closes its cancel channel. */
  function Unregister(s: State, id: Id): State {
    var t := s.(timeoutActionMap := s.timeoutActionMap - {id}, timerInfo := s.timerInfo - {id});
    if id !in s.delTimeoutAction then t
    else
      var ch := s.delTimeoutAction[id];
      t.(delTimeoutAction := s.delTimeoutAction - {id},
         closedChans := s.closedChans + {ch},
         closedTwice := s.closedTwice || ch in s.closedChans)
  }

  /** The remaining wait of a paused timer. */
  function Remaining(info: TimerInfo): int {
    info.waitTime - (info.pauseTime - info.startTime)
  }

  /** Sends a repeating action's next add, without a function. */
  function Rearm(s: State, id: Id, waitTime: int, repeat: bool): State {
    if repeat then s.(queue := s.queue + [Add(id, waitTime, Nil, true)]) else s
  }

  /** Starts the handler of an expired action. Calling a missing function panics, and an
      action that panics or repeats stays registered. */
  function Execute(s: State, id: Id, waitTime: int, repeat: bool, panics: bool): State {
    if id !in s.timeoutActionMap then Unregister(s, id)
    else
      var t := Rearm(s, id, waitTime, repeat);
      if s.timeoutActionMap[id].Nil? then t
      else
        var u := t.(runs := t.runs + [id]);
        if panics || repeat then u else Unregister(u, id)
  }

  /** Keeps the timer of a registered action for a later resume. */
  function SetAside(s: State, id: Id, now: int): State
    requires id in s.timerInfo
  {
    s.(pauseTimerEvent := s.pauseTimerEvent[id := s.timerInfo[id].(pauseTime := now)],
       ran := s.ran[id := RanFor(s, id) + (now - ArmedAt(s, id))])
  }

  /** Arms a paused action for what is left of its wait. */
  function Reactivate(s: State, id: Id, now: int): State
    requires id in s.pauseTimerEvent
  {
    var info := s.pauseTimerEvent[id];
    Arm(s.(pauseTimerEvent := s.pauseTimerEvent - {id}), id, Remaining(info), info.action, false, now)
  }

  /** The main loop's treatment of one message. */
  function HandleMsg(s: State, m: Msg, now: int, panics: bool): State {
    match m
    case Resume(id) => if id in s.pauseTimerEvent then Reactivate(s, id, now) else s
    case Add(id, waitTime, action, repeat) => Arm(s, id, waitTime, action, repeat, now)
    case Expire(id, waitTime, repeat) => Execute(s, id, waitTime, repeat, panics)
    case Pause(id) => Unregister(if id in s.timerInfo then SetAside(s, id, now) else s, id)
    case Del(id) => Unregister(s, id).(pauseTimerEvent := s.pauseTimerEvent - {id})
  }

  function Step(s: State, e: Event): State {
    match e
    case Submit(m) => if m.Expire? then s else s.(queue := s.queue + [m])
    case Handle(i, now, panics) =>
      if i >= |s.queue| then s else HandleMsg(s.(queue := Remove(s.queue, i)), s.queue[i], now, panics)
    case Fire(i) =>
      if i >= |s.waiters| then s
      else
        var w := s.waiters[i];
        s.(waiters := Remove(s.waiters, i), queue := s.queue + [Expire(w.id, w.waitTime, w.repeat)])
    case Cancel(i) =>
      if i >= |s.waiters| || s.waiters[i].cancel !in s.closedChans then s
      else s.(waiters := Remove(s.waiters, i))
  }

  function Run(s: State, es: seq<Event>): State
    decreases |es|
  {
    if es == [] then s else Run(Step(s, es[0]), es[1..])
  }

  lemma {:induction false} RunAppend(s: State, es: seq<Event>, fs: seq<Event>)
    ensures Run(s, es + fs) == Run(Run(s, es), fs)
    decreases |es|
  {
    if es == [] {
      assert es + fs == fs;
    } else {
      assert (es + fs)[1..] == es[1..] + fs;
      RunAppend(Step(s, es[0]), es[1..], fs);
    }
  }

  lemma RunOneMore(s: State, es: seq<Event>, e: Event)
    ensures Run(s, es + [e]) == Step(Run(s, es), e)
  {
    RunAppend(s, es, [e]);
    assert Run(Step(Run(s, es), e), []) == Step(Run(s, es), e);
  }

  /** One more step of a run from the start. */
  lemma Extend(es: seq<Event>, s: State, e: Event) returns (fs: seq<Event>, t: State)
    requires Run(INITIAL, es) == s
    ensures fs == es + [e] && t == Step(s, e) == Run(INITIAL, fs)
  {
    fs, t := es + [e], Step(s, e);
    RunOneMore(INITIAL, es, e);
  }

  /** One more message of a run from the start, taken in the order sent. */
  lemma Take(es: seq<Event>, s: State, now: int, panics: bool) returns (fs: seq<Event>, t: State)
    requires Run(INITIAL, es) == s && s.queue != []
    ensures fs == es + [Handle(0, now, panics)] && t == Run(INITIAL, fs)
    ensures t == HandleMsg(s.(queue := s.queue[1..]), s.queue[0], now, panics)
  {
    fs, t := Extend(es, s, Handle(0, now, panics));
    assert Remove(s.queue, 0) == s.queue[1..];
  }

  // ----- the maps and the channels

  /** The three maps have the same keys, the timer information holds the registered function,
      and every registered cancel channel is open and belongs to one action only. */
  ghost predicate Consistent(s: State) {
    && s.timeoutActionMap.Keys == s.delTimeoutAction.Keys == s.timerInfo.Keys
    && (forall x | x in s.timerInfo && x in s.timeoutActionMap :: s.timerInfo[x].action == s.timeoutActionMap[x])
    && (forall x | x in s.delTimeoutAction ::
          0 <= s.delTimeoutAction[x] < s.nextChan && s.delTimeoutAction[x] !in s.closedChans)
    && (forall x, y | x in s.delTimeoutAction && y in s.delTimeoutAction && x != y ::
          s.delTimeoutAction[x] != s.delTimeoutAction[y])
    && (forall ch | ch in s.closedChans :: 0 <= ch < s.nextChan)
    && (forall w | w in s.waiters :: 0 <= w.cancel < s.nextChan)
    && !s.closedTwice
  }

  lemma ArmKeepsConsistent(s: State, id: Id, waitTime: int, action: Action, repeat: bool, now: int)
    requires Consistent(s)
    ensures Consistent(Arm(s, id, waitTime, action, repeat, now))
  {
  }

  lemma UnregisterKeepsConsistent(s: State, id: Id)
    requires Consistent(s)
    ensures Consistent(Unregister(s, id))
  {
    var t := Unregister(s, id);
    if id in s.delTimeoutAction {
      forall x | x in t.delTimeoutAction ensures t.delTimeoutAction[x] !in t.closedChans {
        assert x in s.delTimeoutAction && x != id;
      }
    }
  }

  /** Messages on their way and handlers started play no part in it. */
  lemma MessagesKeepConsistent(s: State, queue: seq<Msg>, runs: seq<Id>)
    requires Consistent(s)
    ensures Consistent(s.(queue := queue, runs := runs))
  {
  }

  lemma ExecuteKeepsConsistent(s: State, id: Id, waitTime: int, repeat: bool, panics: bool)
    requires Consistent(s)
    ensures Consistent(Execute(s, id, waitTime, repeat, panics))
  {
    if id !in s.timeoutActionMap {
      UnregisterKeepsConsistent(s, id);
    } else {
      var t := Rearm(s, id, waitTime, repeat);
      var u := t.(runs := t.runs + [id]);
      MessagesKeepConsistent(s, t.queue, s.runs);
      MessagesKeepConsistent(s, t.queue, u.runs);
      UnregisterKeepsConsistent(u, id);
    }
  }

  lemma HandleKeepsConsistent(s: State, m: Msg, now: int, panics: bool)
    requires Consistent(s)
    ensures Consistent(HandleMsg(s, m, now, panics))
  {
    match m
    case Add(id, waitTime, action, repeat) => ArmKeepsConsistent(s, id, waitTime, action, repeat, now);
    case Resume(id) =>
      if id in s.pauseTimerEvent {
        var info := s.pauseTimerEvent[id];
        var t := s.(pauseTimerEvent := s.pauseTimerEvent - {id});
        ArmKeepsConsistent(t, id, Remaining(info), info.action, false, now);
      }
    case Del(id) => UnregisterKeepsConsistent(s, id);
    case Pause(id) => UnregisterKeepsConsistent(if id in s.timerInfo then SetAside(s, id, now) else s, id);
    case Expire(id, waitTime, repeat) => ExecuteKeepsConsistent(s, id, waitTime, repeat, panics);
  }

  lemma StepKeepsConsistent(s: State, e: Event)
    requires Consistent(s)
    ensures Consistent(Step(s, e))
  {
    if e.Handle? && e.i < |s.queue| {
      MessagesKeepConsistent(s, Remove(s.queue, e.i), s.runs);
      HandleKeepsConsistent(s.(queue := Remove(s.queue, e.i)), s.queue[e.i], e.now, e.panics);
    }
  }

  /** Over every run the maps stay consistent and no cancel channel is closed twice. */
  lemma {:induction false} RunKeepsConsistent(s: State, es: seq<Event>)
    requires Consistent(s)
    ensures Consistent(Run(s, es))
    decreases |es|
  {
    if es != [] {
      StepKeepsConsistent(s, es[0]);
      RunKeepsConsistent(Step(s, es[0]), es[1..]);
    }
  }

  // ----- waiters of actions that are gone

  /** The waiter's channel is the one registered for its action. */
  predicate Owns(s: State, w: Waiter) {
    w.id in s.delTimeoutAction && s.delTimeoutAction[w.id] == w.cancel
  }

  /** Every waiter whose registration is gone finds its cancel channel closed. */
  ghost predicate NoneStranded(s: State) {
    forall w | w in s.waiters :: Owns(s, w) || w.cancel in s.closedChans
  }

  lemma ArmStrandsNone(s: State, id: Id, waitTime: int, action: Action, repeat: bool, now: int)
    requires s.timeoutActionMap.Keys == s.delTimeoutAction.Keys && NoneStranded(s)
    ensures NoneStranded(Arm(s, id, waitTime, action, repeat, now))
  {
  }

  lemma UnregisterStrandsNone(s: State, id: Id)
    requires NoneStranded(s)
    ensures NoneStranded(Unregister(s, id))
  {
  }

  lemma ExecuteStrandsNone(s: State, id: Id, waitTime: int, repeat: bool, panics: bool)
    requires NoneStranded(s)
    ensures NoneStranded(Execute(s, id, waitTime, repeat, panics))
  {
    var t := Rearm(s, id, waitTime, repeat);
    UnregisterStrandsNone(if id in s.timeoutActionMap then t.(runs := t.runs + [id]) else s, id);
  }

  lemma HandleStrandsNone(s: State, m: Msg, now: int, panics: bool)
    requires s.timeoutActionMap.Keys == s.delTimeoutAction.Keys && NoneStranded(s)
    ensures NoneStranded(HandleMsg(s, m, now, panics))
  {
    match m
    case Add(id, waitTime, action, repeat) => ArmStrandsNone(s, id, waitTime, action, repeat, now);
    case Resume(id) =>
      if id in s.pauseTimerEvent {
        var info := s.pauseTimerEvent[id];
        var t := s.(pauseTimerEvent := s.pauseTimerEvent - {id});
        ArmStrandsNone(t, id, Remaining(info), info.action, false, now);
      }
    case Expire(id, waitTime, repeat) => ExecuteStrandsNone(s, id, waitTime, repeat, panics);
    case Pause(id) => UnregisterStrandsNone(if id in s.timerInfo then SetAside(s, id, now) else s, id);
    case Del(id) => UnregisterStrandsNone(s, id);
  }

  lemma StepStrandsNone(s: State, e: Event)
    requires Consistent(s) && NoneStranded(s)
    ensures NoneStranded(Step(s, e))
  {
    if e.Handle? && e.i < |s.queue| {
      HandleStrandsNone(s.(queue := Remove(s.queue, e.i)), s.queue[e.i], e.now, e.panics);
    }
  }

  /** Over every run, deleting, pausing or running out an action leaves no goroutine that
      waits in vain: its channel is closed. */
  lemma {:induction false} RunStrandsNone(s: State, es: seq<Event>)
    requires Consistent(s) && NoneStranded(s)
    ensures NoneStranded(Run(s, es))
    decreases |es|
  {
    if es != [] {
      StepKeepsConsistent(s, es[0]);
      StepStrandsNone(s, es[0]);
      RunStrandsNone(Step(s, es[0]), es[1..]);
    }
  }

  // ----- actions nobody has mentioned yet

  predicate LeavesAlone(e: Event, x: Id) {
    e.Submit? ==> e.m.id != x
  }

  /** Nothing in the service is about `x`. */
  ghost predicate Untouched(s: State, x: Id) {
    && (forall m | m in s.queue :: m.id != x)
    && (forall w | w in s.waiters :: w.id != x)
    && x !in s.timeoutActionMap && x !in s.pauseTimerEvent && x !in s.ran && x !in s.runs
  }

  lemma ArmKeepsUntouched(s: State, id: Id, waitTime: int, action: Action, repeat: bool, now: int, x: Id)
    requires Untouched(s, x) && id != x
    ensures Untouched(Arm(s, id, waitTime, action, repeat, now), x)
  {
  }

  lemma UnregisterKeepsUntouched(s: State, id: Id, x: Id)
    requires Untouched(s, x)
    ensures Untouched(Unregister(s, id), x)
  {
  }

  lemma ExecuteKeepsUntouched(s: State, id: Id, waitTime: int, repeat: bool, panics: bool, x: Id)
    requires Untouched(s, x) && id != x
    ensures Untouched(Execute(s, id, waitTime, repeat, panics), x)
  {
    var t := Rearm(s, id, waitTime, repeat);
    UnregisterKeepsUntouched(if id in s.timeoutActionMap then t.(runs := t.runs + [id]) else s, id, x);
  }

  lemma HandleKeepsUntouched(s: State, m: Msg, now: int, panics: bool, x: Id)
    requires Untouched(s, x) && m.id != x
    ensures Untouched(HandleMsg(s, m, now, panics), x)
  {
    match m
    case Add(id, waitTime, action, repeat) => ArmKeepsUntouched(s, id, waitTime, action, repeat, now, x);
    case Resume(id) =>
      if id in s.pauseTimerEvent {
        var info := s.pauseTimerEvent[id];
        var t := s.(pauseTimerEvent := s.pauseTimerEvent - {id});
        ArmKeepsUntouched(t, id, Remaining(info), info.action, false, now, x);
      }
    case Expire(id, waitTime, repeat) => ExecuteKeepsUntouched(s, id, waitTime, repeat, panics, x);
    case Pause(id) => UnregisterKeepsUntouched(if id in s.timerInfo then SetAside(s, id, now) else s, id, x);
    case Del(id) => UnregisterKeepsUntouched(s, id, x);
  }

  lemma WaiterKeepsUntouched(s: State, e: Event, x: Id)
    requires Untouched(s, x) && (e.Fire? || e.Cancel?)
    ensures Untouched(Step(s, e), x)
  {
    if e.i < |s.waiters| {
      assert s.waiters[e.i] in s.waiters && forall w | w in Remove(s.waiters, e.i) :: w in s.waiters;
    }
  }

  lemma StepKeepsUntouched(s: State, e: Event, x: Id)
    requires Untouched(s, x) && LeavesAlone(e, x)
    ensures Untouched(Step(s, e), x)
  {
    if e.Handle? && e.i < |s.queue| {
      var t := s.(queue := Remove(s.queue, e.i));
      assert s.queue[e.i] in s.queue && forall m | m in t.queue :: m in s.queue;
      HandleKeepsUntouched(t, s.queue[e.i], e.now, e.panics, x);
    } else if !e.Submit? && !e.Handle? {
      WaiterKeepsUntouched(s, e, x);
    }
  }

  lemma {:induction false} RunKeepsUntouched(s: State, es: seq<Event>, x: Id)
    requires Untouched(s, x) && forall e | e in es :: LeavesAlone(e, x)
    ensures Untouched(Run(s, es), x)
    decreases |es|
  {
    if es != [] {
      StepKeepsUntouched(s, es[0], x);
      RunKeepsUntouched(Step(s, es[0]), es[1..], x);
    }
  }
}
