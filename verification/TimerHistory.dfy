/** What each message does to a timed action, told from outside, and what that means for a whole
    history: when an action is registered, set aside, run and armed. */
module TimerHistory {
  import opened Counting
  import opened TimeoutActions

  /** The message registers `x` unless it is registered already. */
  predicate Registers(s: State, m: Msg, x: Id) {
    m.id == x && (m.Add? || (m.Resume? && x in s.pauseTimerEvent))
  }

  /** The message ends the registration of `x`: a delete, a pause, or the expiry of a one-shot
      action whose handler returns. A missing handler panics. */
  predicate EndsRegistration(s: State, m: Msg, panics: bool, x: Id) {
    && m.id == x && x in s.timeoutActionMap
    && (m.Del? || m.Pause? || (m.Expire? && !m.repeat && !panics && s.timeoutActionMap[x].Fn?))
  }

  /** What every treatment of a message does to handlers, messages and paused timers. */
  predicate Same(s: State, t: State) {
    t.runs == s.runs && t.queue == s.queue && t.pauseTimerEvent == s.pauseTimerEvent
  }

  lemma ArmFields(s: State, id: Id, waitTime: int, action: Action, repeat: bool, now: int)
    ensures var t := Arm(s, id, waitTime, action, repeat, now);
      && Same(s, t) && t.closedChans == s.closedChans
      && t.timeoutActionMap ==
           (if id in s.timeoutActionMap then s.timeoutActionMap else s.timeoutActionMap[id := action])
  {
  }

  lemma UnregisterFields(s: State, id: Id)
    ensures var t := Unregister(s, id);
      && Same(s, t) && t.timeoutActionMap == s.timeoutActionMap - {id} && t.waiters == s.waiters
      && t.closedChans == s.closedChans + (if id in s.delTimeoutAction then {s.delTimeoutAction[id]} else {})
  {
  }

  /** The channel that closes with the registration. */
  function ClosedBy(s: State, m: Msg, panics: bool): set<int> {
    if EndsRegistration(s, m, panics, m.id) && m.id in s.delTimeoutAction then {s.delTimeoutAction[m.id]} else {}
  }

  lemma ExpiredFields(s: State, m: Msg, now: int, panics: bool)
    requires Consistent(s) && m.Expire?
    ensures var t := HandleMsg(s, m, now, panics);
      var held := m.id in s.timeoutActionMap;
      && t.runs == (if held && s.timeoutActionMap[m.id].Fn? then s.runs + [m.id] else s.runs)
      && t.queue == (if held && m.repeat then s.queue + [Add(m.id, m.waitTime, Nil, true)] else s.queue)
      && t.timeoutActionMap ==
           (if EndsRegistration(s, m, panics, m.id) then s.timeoutActionMap - {m.id} else s.timeoutActionMap)
      && t.pauseTimerEvent == s.pauseTimerEvent && t.waiters == s.waiters
  {
    if m.id !in s.timeoutActionMap {
      UnregisterFields(s, m.id);
    } else {
      var t := Rearm(s, m.id, m.waitTime, m.repeat);
      UnregisterFields(t.(runs := t.runs + [m.id]), m.id);
    }
  }

  lemma ExpiredCloses(s: State, m: Msg, now: int, panics: bool)
    requires Consistent(s) && m.Expire?
    ensures HandleMsg(s, m, now, panics).closedChans == s.closedChans + ClosedBy(s, m, panics)
  {
    if m.id !in s.timeoutActionMap {
      UnregisterFields(s, m.id);
    } else {
      var t := Rearm(s, m.id, m.waitTime, m.repeat);
      UnregisterFields(t.(runs := t.runs + [m.id]), m.id);
    }
  }

  lemma AddFields(s: State, m: Msg, now: int, panics: bool)
    requires m.Add? || (m.Resume? && m.id in s.pauseTimerEvent)
    ensures var t := HandleMsg(s, m, now, panics);
      && t.runs == s.runs && t.queue == s.queue && t.closedChans == s.closedChans
      && t.pauseTimerEvent == (if m.Add? then s.pauseTimerEvent else s.pauseTimerEvent - {m.id})
      && t.timeoutActionMap == if m.id in s.timeoutActionMap then s.timeoutActionMap else
           s.timeoutActionMap[m.id := if m.Add? then m.action else s.pauseTimerEvent[m.id].action]
  {
    if m.Add? {
      ArmFields(s, m.id, m.waitTime, m.action, m.repeat, now);
    } else {
      var info := s.pauseTimerEvent[m.id];
      var u := s.(pauseTimerEvent := s.pauseTimerEvent - {m.id});
      ArmFields(u, m.id, Remaining(info), info.action, false, now);
    }
  }

  lemma EndedFields(s: State, m: Msg, now: int, panics: bool)
    requires Consistent(s) && (m.Del? || m.Pause?)
    ensures var t := HandleMsg(s, m, now, panics);
      && t.runs == s.runs && t.queue == s.queue && t.waiters == s.waiters
      && t.timeoutActionMap == s.timeoutActionMap - {m.id}
      && t.closedChans == s.closedChans + ClosedBy(s, m, panics)
      && t.pauseTimerEvent.Keys ==
           if m.Del? then s.pauseTimerEvent.Keys - {m.id}
           else s.pauseTimerEvent.Keys + if m.id in s.timeoutActionMap then {m.id} else {}
  {
    UnregisterFields(if m.Pause? && m.id in s.timerInfo then SetAside(s, m.id, now) else s, m.id);
  }

  lemma RegisteredAfter(s: State, m: Msg, now: int, panics: bool, x: Id)
    requires Consistent(s)
    ensures var t := HandleMsg(s, m, now, panics);
      x in t.timeoutActionMap <==>
        (x in s.timeoutActionMap && !EndsRegistration(s, m, panics, x)) || Registers(s, m, x)
  {
    if m.Add? || (m.Resume? && m.id in s.pauseTimerEvent) {
      AddFields(s, m, now, panics);
    } else if m.Del? || m.Pause? {
      EndedFields(s, m, now, panics);
    } else if m.Expire? {
      ExpiredFields(s, m, now, panics);
    }
  }

  /** A registered action keeps its handler; a new one has that of the add or of the pause. */
  lemma HandlerAfter(s: State, m: Msg, now: int, panics: bool, x: Id)
    requires Consistent(s) && x in HandleMsg(s, m, now, panics).timeoutActionMap
    ensures HandleMsg(s, m, now, panics).timeoutActionMap[x] ==
      if x in s.timeoutActionMap then s.timeoutActionMap[x]
      else if m.Add? then m.action
      else if x in s.pauseTimerEvent then s.pauseTimerEvent[x].action
      else Nil
  {
    if m.Add? || (m.Resume? && m.id in s.pauseTimerEvent) {
      AddFields(s, m, now, panics);
    } else if m.Del? || m.Pause? {
      EndedFields(s, m, now, panics);
    } else if m.Expire? {
      ExpiredFields(s, m, now, panics);
    }
  }

  /** An action is paused from a pause of it while it was registered until it is resumed or
      deleted. */
  lemma PausedAfter(s: State, m: Msg, now: int, panics: bool, x: Id)
    requires Consistent(s)
    ensures var t := HandleMsg(s, m, now, panics);
      x in t.pauseTimerEvent <==>
        (m == Pause(x) && x in s.timeoutActionMap) || (x in s.pauseTimerEvent && m != Resume(x) && m != Del(x))
  {
    if m.Add? || (m.Resume? && m.id in s.pauseTimerEvent) {
      AddFields(s, m, now, panics);
    } else if m.Del? || m.Pause? {
      EndedFields(s, m, now, panics);
    } else if m.Expire? {
      ExpiredFields(s, m, now, panics);
    }
  }

  /** A handler starts exactly when the expiry of its action is handled while that is registered
      with a function. */
  lemma RunsAfter(s: State, m: Msg, now: int, panics: bool)
    requires Consistent(s)
    ensures HandleMsg(s, m, now, panics).runs ==
      if m.Expire? && m.id in s.timeoutActionMap && s.timeoutActionMap[m.id].Fn? then s.runs + [m.id] else s.runs
  {
    if m.Add? || (m.Resume? && m.id in s.pauseTimerEvent) {
      AddFields(s, m, now, panics);
    } else if m.Del? || m.Pause? {
      EndedFields(s, m, now, panics);
    } else if m.Expire? {
      ExpiredFields(s, m, now, panics);
    }
  }

  /** A repeating action that is still registered sends its next add, handler or not, panic or
      not; nothing else is sent. */
  lemma SentAfter(s: State, m: Msg, now: int, panics: bool)
    requires Consistent(s)
    ensures HandleMsg(s, m, now, panics).queue ==
      if m.Expire? && m.repeat && m.id in s.timeoutActionMap
      then s.queue + [Add(m.id, m.waitTime, Nil, true)] else s.queue
  {
    if m.Add? || (m.Resume? && m.id in s.pauseTimerEvent) {
      AddFields(s, m, now, panics);
    } else if m.Del? || m.Pause? {
      EndedFields(s, m, now, panics);
    } else if m.Expire? {
      ExpiredFields(s, m, now, panics);
    }
  }

  /** Exactly the channel of a registration that ends is closed. */
  lemma ClosedAfter(s: State, m: Msg, now: int, panics: bool, ch: int)
    requires Consistent(s)
    ensures var t := HandleMsg(s, m, now, panics);
      ch in t.closedChans <==>
        || ch in s.closedChans
        || (EndsRegistration(s, m, panics, m.id) && m.id in s.delTimeoutAction && ch == s.delTimeoutAction[m.id])
  {
    if m.Add? || (m.Resume? && m.id in s.pauseTimerEvent) {
      AddFields(s, m, now, panics);
    } else if m.Del? || m.Pause? {
      EndedFields(s, m, now, panics);
    } else if m.Expire? {
      ExpiredCloses(s, m, now, panics);
    }
  }

  /** A message arms a waiter: an add that repeats or is new, or the resume of a paused action
      that is not registered. */
  predicate Arms(s: State, m: Msg) {
    || (m.Add? && (m.repeat || m.id !in s.timeoutActionMap))
    || (m.Resume? && m.id in s.pauseTimerEvent && m.id !in s.timeoutActionMap)
  }

  /** At most one waiter is armed, and it listens to the channel registered for its action; it
      waits as long as the add says, or for what the pause left. */
  lemma ArmedAfter(s: State, m: Msg, now: int, panics: bool)
    requires Consistent(s)
    ensures var t := HandleMsg(s, m, now, panics);
      if !Arms(s, m) then t.waiters == s.waiters
      else
        && m.id in t.delTimeoutAction && (m.Resume? ==> m.id in s.pauseTimerEvent)
        && t.waiters == s.waiters + [Waiter(m.id, t.delTimeoutAction[m.id],
             if m.Add? then m.waitTime else Remaining(s.pauseTimerEvent[m.id]), m.Add? && m.repeat)]
  {
  }

  lemma ArmClock(s: State, id: Id, waitTime: int, action: Action, repeat: bool, now: int)
    ensures var t := Arm(s, id, waitTime, action, repeat, now);
      t.ran == s.ran && t.armedAt == if repeat || id !in s.timeoutActionMap then s.armedAt[id := now] else s.armedAt
  {
  }

  lemma UnregisterClock(s: State, id: Id)
    ensures Unregister(s, id).ran == s.ran && Unregister(s, id).armedAt == s.armedAt
  {
  }

  lemma ExpiredClock(s: State, m: Msg, now: int, panics: bool)
    requires m.Expire?
    ensures HandleMsg(s, m, now, panics).ran == s.ran && HandleMsg(s, m, now, panics).armedAt == s.armedAt
  {
    if m.id !in s.timeoutActionMap {
      UnregisterClock(s, m.id);
    } else {
      var t := Rearm(s, m.id, m.waitTime, m.repeat);
      UnregisterClock(t.(runs := t.runs + [m.id]), m.id);
    }
  }

  lemma AddClock(s: State, m: Msg, now: int, panics: bool)
    requires m.Add? || (m.Resume? && m.id in s.pauseTimerEvent)
    ensures var t := HandleMsg(s, m, now, panics);
      t.ran == s.ran && t.armedAt == if Arms(s, m) then s.armedAt[m.id := now] else s.armedAt
  {
    if m.Add? {
      ArmClock(s, m.id, m.waitTime, m.action, m.repeat, now);
    } else {
      var info := s.pauseTimerEvent[m.id];
      var u := s.(pauseTimerEvent := s.pauseTimerEvent - {m.id});
      ArmClock(u, m.id, Remaining(info), info.action, false, now);
    }
  }

  lemma EndedClock(s: State, m: Msg, now: int, panics: bool)
    requires Consistent(s) && (m.Del? || m.Pause?)
    ensures var t := HandleMsg(s, m, now, panics);
      && t.armedAt == s.armedAt
      && t.ran == if m.Pause? && m.id in s.timeoutActionMap
                  then s.ran[m.id := RanFor(s, m.id) + (now - ArmedAt(s, m.id))] else s.ran
  {
    UnregisterClock(if m.Pause? && m.id in s.timerInfo then SetAside(s, m.id, now) else s, m.id);
  }

  /** The clock is noted when a waiter is armed, and the time armed so far grows by a pause of a
      registered action only, by the time since. */
  lemma ClockAfter(s: State, m: Msg, now: int, panics: bool, x: Id)
    requires Consistent(s)
    ensures var t := HandleMsg(s, m, now, panics);
      && ArmedAt(t, x) == (if m.id == x && Arms(s, m) then now else ArmedAt(s, x))
      && RanFor(t, x) == RanFor(s, x) + if m == Pause(x) && x in s.timeoutActionMap then now - ArmedAt(s, x) else 0
  {
    if m.Add? || (m.Resume? && m.id in s.pauseTimerEvent) {
      AddClock(s, m, now, panics);
    } else if m.Del? || m.Pause? {
      EndedClock(s, m, now, panics);
    } else if m.Expire? {
      ExpiredClock(s, m, now, panics);
    }
  }

  // ----- histories

  /** The step handles a message that registers `x`. */
  predicate Begins(s: State, e: Event, x: Id) {
    e.Handle? && e.i < |s.queue| && Registers(s, s.queue[e.i], x)
  }

  predicate Ends(s: State, e: Event, x: Id) {
    e.Handle? && e.i < |s.queue| && EndsRegistration(s, s.queue[e.i], e.panics, x)
  }

  lemma StepRegistered(s: State, e: Event, x: Id)
    requires Consistent(s)
    ensures x in Step(s, e).timeoutActionMap <==> (x in s.timeoutActionMap && !Ends(s, e, x)) || Begins(s, e, x)
  {
    if e.Handle? && e.i < |s.queue| {
      var t := s.(queue := Remove(s.queue, e.i));
      MessagesKeepConsistent(s, t.queue, s.runs);
      RegisteredAfter(t, s.queue[e.i], e.now, e.panics, x);
    }
  }

  /** Step `k` of the run began the registration of `x`, and no later step ended it. */
  predicate BegunAt(es: seq<Event>, x: Id, k: nat)
    requires k < |es|
  {
    && Begins(Run(INITIAL, es[..k]), es[k], x)
    && forall j | k < j < |es| :: !Ends(Run(INITIAL, es[..j]), es[j], x)
  }

  lemma BegunEarlier(es: seq<Event>, e: Event, x: Id, k: nat)
    requires k < |es|
    ensures BegunAt(es + [e], x, k) <==> BegunAt(es, x, k) && !Ends(Run(INITIAL, es), e, x)
  {
    assert (es + [e])[..|es|] == es;
    assert forall j | 0 <= j < |es| :: (es + [e])[..j] == es[..j] && (es + [e])[j] == es[j];
    if BegunAt(es + [e], x, k) {
      assert !Ends(Run(INITIAL, (es + [e])[..|es|]), (es + [e])[|es|], x);
      forall j | k < j < |es| ensures !Ends(Run(INITIAL, es[..j]), es[j], x) {
        assert !Ends(Run(INITIAL, (es + [e])[..j]), (es + [e])[j], x);
      }
    }
    if BegunAt(es, x, k) && !Ends(Run(INITIAL, es), e, x) {
      forall j | k < j < |es + [e]| ensures !Ends(Run(INITIAL, (es + [e])[..j]), (es + [e])[j], x) {
        if j < |es| {
          assert !Ends(Run(INITIAL, es[..j]), es[j], x);
        }
      }
    }
  }

  lemma BegunNow(es: seq<Event>, e: Event, x: Id)
    ensures BegunAt(es + [e], x, |es|) <==> Begins(Run(INITIAL, es), e, x)
  {
    assert (es + [e])[..|es|] == es;
  }

  ghost predicate Begun(es: seq<Event>, x: Id) {
    exists k: nat :: k < |es| && BegunAt(es, x, k)
  }

  lemma BegunOneMore(es: seq<Event>, e: Event, x: Id)
    ensures Begun(es + [e], x) <==>
      (Begun(es, x) && !Ends(Run(INITIAL, es), e, x)) || Begins(Run(INITIAL, es), e, x)
  {
    BegunNow(es, e, x);
    forall k: nat | k < |es|
      ensures BegunAt(es + [e], x, k) <==> BegunAt(es, x, k) && !Ends(Run(INITIAL, es), e, x)
    {
      BegunEarlier(es, e, x, k);
    }
  }

  /** An action is registered exactly if some handled add or resume of a paused timer registered
      it and nothing since has ended that: no delete, no pause and no run to its end. */
  lemma {:induction false} RegisteredIff(es: seq<Event>, x: Id)
    ensures x in Run(INITIAL, es).timeoutActionMap <==> Begun(es, x)
    decreases |es|
  {
    if es != [] {
      var before, e := es[..|es| - 1], es[|es| - 1];
      assert es == before + [e];
      RegisteredIff(before, x);
      RunOneMore(INITIAL, before, e);
      RunKeepsConsistent(INITIAL, before);
      StepRegistered(Run(INITIAL, before), e, x);
      BegunOneMore(before, e, x);
    }
  }
}
