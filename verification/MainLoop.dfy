/** The service object: its maps, the methods that send messages to the main loop, and the
    main loop. Sending or treating one message is one step of the state machine in module
    `TimeoutActions`, and the loop is a run of it. */
module MainLoop {
  import opened Counting
  import T = TimeoutActions

  const DIGITS := "0123456789"

  /** The decimal form of an allocated id. */
  function Decimal(n: nat): string {
    if n < 10 then [DIGITS[n]] else Decimal(n / 10) + [DIGITS[n % 10]]
  }

  lemma DigitsDiffer(a: nat, b: nat)
    requires a < 10 && b < 10 && DIGITS[a] == DIGITS[b]
    ensures a == b
  {
  }

  lemma DecimalParts(n: nat)
    ensures var d := Decimal(n);
      && |d| >= 1 && d[|d| - 1] == DIGITS[n % 10]
      && (n >= 10 ==> |d| > 1 && d[..|d| - 1] == Decimal(n / 10))
      && (n < 10 ==> |d| == 1)
  {
  }

  /** Ids allocated for different numbers are different. */
  lemma {:induction false} DecimalInjective(a: nat, b: nat)
    requires Decimal(a) == Decimal(b)
    ensures a == b
  {
    DecimalParts(a);
    DecimalParts(b);
    DigitsDiffer(a % 10, b % 10);
    if a >= 10 {
      DecimalInjective(a / 10, b / 10);
    }
  }

  lemma KeysRemoved<V>(m: map<T.Id, V>, id: T.Id)
    ensures id !in m ==> m - {id} == m
  {
  }

  /** What others do before one turn of the loop, and the message it takes. */
  datatype Turn = Turn(others: seq<T.Event>, i: nat, now: int, panics: bool)

  function TurnEvents(turns: seq<Turn>): seq<T.Event> {
    if turns == [] then []
    else
      var n := |turns| - 1;
      TurnEvents(turns[..n]) + turns[n].others + [T.Handle(turns[n].i, turns[n].now, turns[n].panics)]
  }

  lemma OneMoreTurn(s: T.State, turns: seq<Turn>, k: nat)
    requires k < |turns|
    ensures var turn := turns[k];
      T.Run(s, TurnEvents(turns[..k + 1])) ==
        T.Step(T.Run(T.Run(s, TurnEvents(turns[..k])), turn.others), T.Handle(turn.i, turn.now, turn.panics))
  {
    var turn, es := turns[k], TurnEvents(turns[..k]);
    assert turns[..k + 1][..k] == turns[..k];
    T.RunAppend(s, es, turn.others);
    T.RunOneMore(s, es + turn.others, T.Handle(turn.i, turn.now, turn.panics));
  }

  class BaseService {
    var allocTimeoutActionID: nat
    var timeoutActionMap: map<T.Id, T.Action>
    var delTimeoutAction: map<T.Id, int>
    var timerInfo: map<T.Id, T.TimerInfo>
    var pauseTimerEvent: map<T.Id, T.TimerInfo>
    var timeoutAction: seq<T.Msg>
    var waiters: seq<T.Waiter>
    var nextChan: nat
    var closedChans: set<int>
    ghost var closedTwice: bool
    ghost var runs: seq<T.Id>
    ghost var armedAt: map<T.Id, int>
    ghost var ran: map<T.Id, int>

    ghost function View(): T.State
      reads this
    {
      T.State(timeoutActionMap, delTimeoutAction, timerInfo, pauseTimerEvent, timeoutAction, waiters,
        nextChan, closedChans, closedTwice, runs, armedAt, ran)
    }

    /** The maps have the same keys, and no cancel channel has been closed twice. */
    ghost predicate Valid()
      reads this
    {
      T.Consistent(View())
    }

    constructor ()
      ensures Valid() && View() == T.INITIAL && allocTimeoutActionID == 0
    {
      allocTimeoutActionID := 0;
      timeoutActionMap, delTimeoutAction, timerInfo, pauseTimerEvent := map[], map[], map[], map[];
      timeoutAction, waiters, nextChan := [], [], 0;
      closedChans, closedTwice, runs, armedAt, ran := {}, false, [], map[], map[];
    }

    // ----- sending messages

    method AddTimeoutActionEx(waitTime: int, actionID: T.Id, fp: T.Action, repeat: bool)
      modifies `timeoutAction
      ensures View() == T.Step(old(View()), T.Submit(T.Add(actionID, waitTime, fp, repeat)))
    {
      timeoutAction := timeoutAction + [T.Add(actionID, waitTime, fp, repeat)];
    }

    /** Adds an action under an id that no earlier or later call of this method returns. */
    method AddTimeoutAction(waitTime: int, fp: T.Action, repeat: bool) returns (id: T.Id)
      modifies `timeoutAction, `allocTimeoutActionID
      ensures id == Decimal(old(allocTimeoutActionID)) && allocTimeoutActionID == old(allocTimeoutActionID) + 1
      ensures View() == T.Step(old(View()), T.Submit(T.Add(id, waitTime, fp, repeat)))
    {
      var allocID := allocTimeoutActionID;
      allocTimeoutActionID := allocTimeoutActionID + 1;
      id := Decimal(allocID);
      AddTimeoutActionEx(waitTime, id, fp, repeat);
    }

    method DelTimeoutAction(actionID: T.Id)
      modifies `timeoutAction
      ensures View() == T.Step(old(View()), T.Submit(T.Del(actionID)))
    {
      timeoutAction := timeoutAction + [T.Del(actionID)];
    }

    method PauseTimeoutAction(actionID: T.Id)
      modifies `timeoutAction
      ensures View() == T.Step(old(View()), T.Submit(T.Pause(actionID)))
    {
      timeoutAction := timeoutAction + [T.Pause(actionID)];
    }

    method ResumeTimeoutAction(actionID: T.Id)
      modifies `timeoutAction
      ensures View() == T.Step(old(View()), T.Submit(T.Resume(actionID)))
    {
      timeoutAction := timeoutAction + [T.Resume(actionID)];
    }

    // ----- the waiting goroutine

    /** The goroutine's delay is over before it notices a cancel. */
    method WaiterFires(i: nat)
      requires i < |waiters|
      modifies `waiters, `timeoutAction
      ensures View() == T.Step(old(View()), T.Fire(i))
    {
      var w := waiters[i];
      waiters := Remove(waiters, i);
      timeoutAction := timeoutAction + [T.Expire(w.id, w.waitTime, w.repeat)];
    }

    /** The goroutine notices that its cancel channel is closed. */
    method WaiterCancelled(i: nat)
      requires i < |waiters| && waiters[i].cancel in closedChans
      modifies `waiters
      ensures View() == T.Step(old(View()), T.Cancel(i))
    {
      waiters := Remove(waiters, i);
    }

    // ----- the main loop

    method ArmTimer(id: T.Id, waitTime: int, action: T.Action, repeat: bool, now: int)
      modifies this
      ensures View() == T.Arm(old(View()), id, waitTime, action, repeat, now)
    {
      if id !in timeoutActionMap {
        timeoutActionMap := timeoutActionMap[id := action];
        delTimeoutAction := delTimeoutAction[id := nextChan];
        nextChan := nextChan + 1;
        timerInfo := timerInfo[id := T.TimerInfo(now, 0, waitTime, action)];
      } else if !repeat {
        return;
      }
      var cancel := if id in delTimeoutAction then delTimeoutAction[id] else -1;
      waiters := waiters + [T.Waiter(id, cancel, waitTime, repeat)];
      armedAt := armedAt[id := now];
    }

    method Unregister(id: T.Id)
      modifies this
      ensures View() == T.Unregister(old(View()), id)
    {
      KeysRemoved(timeoutActionMap, id);
      KeysRemoved(timerInfo, id);
      if id in timeoutActionMap {
        timeoutActionMap := timeoutActionMap - {id};
      }
      if id in delTimeoutAction {
        closedTwice := closedTwice || delTimeoutAction[id] in closedChans;
        closedChans := closedChans + {delTimeoutAction[id]};
        delTimeoutAction := delTimeoutAction - {id};
      }
      if id in timerInfo {
        timerInfo := timerInfo - {id};
      }
    }

    /** Runs the handler of an expired action, re-arming a repeating one first. The result
        says whether the action is to be unregistered. */
    method Execute(id: T.Id, waitTime: int, repeat: bool, panics: bool) returns (fallThrough: bool)
      modifies this
      ensures (if fallThrough then T.Unregister(View(), id) else View()) ==
        T.HandleMsg(old(View()), T.Expire(id, waitTime, repeat), 0, panics)
    {
      if id in timeoutActionMap {
        if repeat {
          timeoutAction := timeoutAction + [T.Add(id, waitTime, T.Nil, true)];
        }
        if timeoutActionMap[id].Nil? {
          return false;
        }
        runs := runs + [id];
        return !(panics || repeat);
      }
      return true;
    }

    method ReceiveResume(id: T.Id, now: int)
      modifies this
      ensures View() == T.HandleMsg(old(View()), T.Resume(id), now, false)
    {
      if id in pauseTimerEvent {
        var info := pauseTimerEvent[id];
        pauseTimerEvent := pauseTimerEvent - {id};
        ArmTimer(id, info.waitTime - (info.pauseTime - info.startTime), info.action, false, now);
      }
    }

    method ReceiveExpire(id: T.Id, waitTime: int, repeat: bool, now: int, panics: bool)
      modifies this
      ensures View() == T.HandleMsg(old(View()), T.Expire(id, waitTime, repeat), now, panics)
    {
      var fallThrough := Execute(id, waitTime, repeat, panics);
      if fallThrough {
        Unregister(id);
      }
    }

    method ReceivePause(id: T.Id, now: int)
      modifies this
      ensures View() == T.HandleMsg(old(View()), T.Pause(id), now, false)
    {
      if id in timerInfo {
        var v := timerInfo[id];
        pauseTimerEvent := pauseTimerEvent[id := v.(pauseTime := now)];
        ran := ran[id := T.RanFor(View(), id) + (now - T.ArmedAt(View(), id))];
      }
      Unregister(id);
    }

    method ReceiveDel(id: T.Id, now: int)
      modifies this
      ensures View() == T.HandleMsg(old(View()), T.Del(id), now, false)
    {
      Unregister(id);
      KeysRemoved(pauseTimerEvent, id);
      if id in pauseTimerEvent {
        pauseTimerEvent := pauseTimerEvent - {id};
      }
    }

    /** Takes the message at position `i` of those waiting and treats it. `panics` says
        whether the handler, if one is called, panics. */
    method Receive(i: nat, now: int, panics: bool)
      requires i < |timeoutAction|
      modifies this
      ensures View() == T.Step(old(View()), T.Handle(i, now, panics))
    {
      var m := timeoutAction[i];
      timeoutAction := Remove(timeoutAction, i);
      match m
      case Resume(id) => ReceiveResume(id, now);
      case Add(id, waitTime, action, repeat) => ArmTimer(id, waitTime, action, repeat, now);
      case Expire(id, waitTime, repeat) => ReceiveExpire(id, waitTime, repeat, now, panics);
      case Pause(id) => ReceivePause(id, now);
      case Del(id) => ReceiveDel(id, now);
    }

    method Other(e: T.Event)
      requires !e.Handle?
      modifies this
      ensures View() == T.Step(old(View()), e)
    {
      match e
      case Submit(m) =>
        if !m.Expire? {
          timeoutAction := timeoutAction + [m];
        }
      case Fire(i) =>
        if i < |waiters| {
          WaiterFires(i);
        }
      case Cancel(i) =>
        if i < |waiters| && waiters[i].cancel in closedChans {
          WaiterCancelled(i);
        }
    }

    /** Steps of callers and of waiting goroutines; one that is not possible changes nothing. */
    method Others(es: seq<T.Event>)
      requires Valid() && forall e | e in es :: !e.Handle?
      modifies this
      ensures Valid() && View() == T.Run(old(View()), es)
    {
      var k := 0;
      while k < |es|
        invariant 0 <= k <= |es| && Valid() && View() == T.Run(old(View()), es[..k])
      {
        T.RunOneMore(old(View()), es[..k], es[k]);
        assert es[..k + 1] == es[..k] + [es[k]];
        T.StepKeepsConsistent(View(), es[k]);
        Other(es[k]);
        k := k + 1;
      }
      assert es[..k] == es;
    }

    /** What others do, and then one message. */
    method TakeTurn(turn: Turn)
      requires Valid() && forall e | e in turn.others :: !e.Handle?
      modifies this
      ensures Valid()
      ensures View() == T.Step(T.Run(old(View()), turn.others), T.Handle(turn.i, turn.now, turn.panics))
    {
      Others(turn.others);
      T.StepKeepsConsistent(View(), T.Handle(turn.i, turn.now, turn.panics));
      if turn.i < |timeoutAction| {
        Receive(turn.i, turn.now, turn.panics);
      }
    }

    /** The loop, one message a turn. Before each turn others may have sent messages and waiting
        goroutines may have fired or given up; the turn takes the message at any position, and
        nothing if there is none. The loop is the run of these events, so what holds of every
        run holds here: the maps agree, and no channel is closed twice. */
    method MainLoop(turns: seq<Turn>)
      requires Valid() && forall t, e | t in turns && e in t.others :: !e.Handle?
      modifies this
      ensures Valid() && !closedTwice
      ensures View() == T.Run(old(View()), TurnEvents(turns))
    {
      var k := 0;
      while k < |turns|
        invariant 0 <= k <= |turns| && Valid() && View() == T.Run(old(View()), TurnEvents(turns[..k]))
      {
        OneMoreTurn(old(View()), turns, k);
        TakeTurn(turns[k]);
        k := k + 1;
      }
      assert turns[..k] == turns;
    }
  }
}
