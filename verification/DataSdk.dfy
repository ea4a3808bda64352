/** The SDK object: its session map, and what its goroutines do, each from start to end. Between
    any two sections under the lock the other goroutines may take any steps, which `Others`
    stands for; what each method does is a run of the state machine in module `DataSession`. */
module DataSdk {
  import opened Counting
  import D = DataSession

  /** How a synchronous call stands: not sent, answered, or still waiting. */
  datatype Outcome = SendFailed | Completed | Waiting

  /** Not a step of the caller of session `sid`. */
  predicate Elsewhere(e: D.Event, sid: D.Id) {
    match e
    case Register(id, _) => id != sid
    case StartTimer(id) => id != sid
    case SendOk(id) => id != sid
    case SendFails(id) => id != sid
    case CallerReturns(id) => id != sid
    case _ => true
  }

  predicate AllElsewhere(es: seq<D.Event>, sid: D.Id) {
    forall e | e in es :: Elsewhere(e, sid)
  }

  /** Not a step of the timer goroutine of session `sid`. */
  predicate NotTimer(e: D.Event, sid: D.Id) {
    match e
    case StartTimer(id) => id != sid
    case TimerGoes(id) => id != sid
    case TimerExpires(id) => id != sid
    case TimerLocked(id) => id != sid
    case TimerNotifies(id) => id != sid
    case _ => true
  }

  predicate NoneTimer(es: seq<D.Event>, sid: D.Id) {
    forall e | e in es :: NotTimer(e, sid)
  }

  /** Not a step of the receiving goroutine. */
  predicate NotReceiving(e: D.Event) {
    !e.RecvLocked? && !e.Deliver?
  }

  predicate NoneReceiving(es: seq<D.Event>) {
    forall e | e in es :: NotReceiving(e)
  }

  /** A session just recorded, its timer not started yet. */
  ghost predicate Recorded(s: D.State, sid: D.Id) {
    sid in s.smap && sid in s.sessions && s.sessions[sid].timer.NotStarted?
  }

  lemma StepKeepsRecorded(s: D.State, e: D.Event, sid: D.Id)
    requires D.Inv(s) && Recorded(s, sid) && Elsewhere(e, sid)
    ensures Recorded(D.Step(s, e), sid) && D.Step(s, e).sessions[sid] == s.sessions[sid]
  {
    assert D.SessionInv(s, sid);
    if e.RecvLocked? && e.i < |s.resChan| {
      assert s.resChan[e.i] in s.resChan;
    } else if e.Deliver? && e.i < |s.handled| {
      CountRemove(s.handled, e.i, D.ValidFor(sid));
    }
  }

  lemma {:induction false} RunKeepsRecorded(s: D.State, es: seq<D.Event>, sid: D.Id)
    requires D.Inv(s) && Recorded(s, sid) && AllElsewhere(es, sid)
    ensures Recorded(D.Run(s, es), sid) && D.Run(s, es).sessions[sid] == s.sessions[sid]
    decreases |es|
  {
    if es != [] {
      D.StepKeepsInv(s, es[0]);
      StepKeepsRecorded(s, es[0], sid);
      RunKeepsRecorded(D.Step(s, es[0]), es[1..], sid);
    }
  }

  /** The session is known and its timer has been started. */
  ghost predicate Started(s: D.State, sid: D.Id) {
    sid in s.sessions && !s.sessions[sid].timer.NotStarted?
  }

  lemma StepKeepsCaller(s: D.State, e: D.Event, sid: D.Id)
    requires Started(s, sid) && Elsewhere(e, sid)
    ensures var t := D.Step(s, e);
      && Started(t, sid)
      && t.sessions[sid].caller == s.sessions[sid].caller && t.sessions[sid].kind == s.sessions[sid].kind
  {
  }

  lemma {:induction false} RunKeepsCaller(s: D.State, es: seq<D.Event>, sid: D.Id)
    requires Started(s, sid) && AllElsewhere(es, sid)
    ensures var t := D.Run(s, es);
      && Started(t, sid)
      && t.sessions[sid].caller == s.sessions[sid].caller && t.sessions[sid].kind == s.sessions[sid].kind
    decreases |es|
  {
    if es != [] {
      StepKeepsCaller(s, es[0], sid);
      RunKeepsCaller(D.Step(s, es[0]), es[1..], sid);
    }
  }

  lemma StepKeepsTimer(s: D.State, e: D.Event, sid: D.Id)
    requires sid in s.sessions && NotTimer(e, sid)
    ensures sid in D.Step(s, e).sessions && D.Step(s, e).sessions[sid].timer == s.sessions[sid].timer
  {
  }

  lemma {:induction false} RunKeepsTimer(s: D.State, es: seq<D.Event>, sid: D.Id)
    requires sid in s.sessions && NoneTimer(es, sid)
    ensures sid in D.Run(s, es).sessions && D.Run(s, es).sessions[sid].timer == s.sessions[sid].timer
    decreases |es|
  {
    if es != [] {
      StepKeepsTimer(s, es[0], sid);
      RunKeepsTimer(D.Step(s, es[0]), es[1..], sid);
    }
  }

  lemma StepKeepsHandled(s: D.State, e: D.Event)
    requires NotReceiving(e)
    ensures D.Step(s, e).handled == s.handled
  {
  }

  lemma {:induction false} RunKeepsHandled(s: D.State, es: seq<D.Event>)
    requires NoneReceiving(es)
    ensures D.Run(s, es).handled == s.handled
    decreases |es|
  {
    if es != [] {
      StepKeepsHandled(s, es[0]);
      RunKeepsHandled(D.Step(s, es[0]), es[1..]);
    }
  }

  /** A session that has left the map does not come back. */
  lemma {:induction false} RunKeepsGone(s: D.State, es: seq<D.Event>, sid: D.Id)
    requires sid in s.sessions && sid !in s.smap
    ensures sid in D.Run(s, es).sessions && sid !in D.Run(s, es).smap
    decreases |es|
  {
    if es != [] {
      RunKeepsGone(D.Step(s, es[0]), es[1..], sid);
    }
  }

  lemma Woken(s: D.State, sid: D.Id)
    requires D.Inv(s) && sid in s.sessions && s.sessions[sid].timer.Waiting? && s.sessions[sid].tq > 0
    ensures var x, t := s.sessions[sid], D.Step(s, D.TimerGoes(sid));
      D.Inv(t) && t == s.(sessions := s.sessions[sid := x.(tq := x.tq - 1, timer := D.Exited)])
  {
    D.SessionStepKeepsInv(s, sid, D.TimerGoes(sid));
  }

  lemma RunOut(s: D.State, sid: D.Id)
    requires D.Inv(s) && sid in s.sessions && s.sessions[sid].timer.Waiting? && s.sessions[sid].fired
    ensures var t := D.Step(s, D.TimerExpires(sid));
      D.Inv(t) && t == s.(sessions := s.sessions[sid := s.sessions[sid].(timer := D.Expired)])
  {
    D.SessionStepKeepsInv(s, sid, D.TimerExpires(sid));
  }

  lemma TimedOut(s: D.State, sid: D.Id)
    requires D.Inv(s) && sid in s.sessions && s.sessions[sid].timer.Expired?
    ensures var x, t := s.sessions[sid], D.Step(s, D.TimerLocked(sid));
      && D.Inv(t)
      && t == if sid in s.smap
              then s.(sessions := s.sessions[sid := x.(timer := D.Notify)], smap := s.smap - {sid})
              else s.(sessions := s.sessions[sid := x.(timer := D.Exited)])
  {
    D.SessionStepKeepsInv(s, sid, D.TimerLocked(sid));
  }

  lemma SendSucceeded(s: D.State, sid: D.Id)
    requires D.Inv(s) && Started(s, sid) && s.sessions[sid].caller.Sending?
    ensures var x, t := s.sessions[sid], D.Step(s, D.SendOk(sid));
      && D.Inv(t)
      && t == s.(sessions := s.sessions[sid := x.(caller := if x.kind.Sync? then D.Blocked else D.Returned)])
  {
    D.SessionStepKeepsInv(s, sid, D.SendOk(sid));
  }

  lemma SendLost(s: D.State, sid: D.Id)
    requires D.Inv(s) && Started(s, sid) && s.sessions[sid].caller.Sending?
    ensures var x, t := s.sessions[sid], D.Step(s, D.SendFails(sid));
      && D.Inv(t)
      && t == s.(sessions := s.sessions[sid := D.GivenUp(x, sid in s.smap)], smap := s.smap - {sid})
  {
    D.SessionStepKeepsInv(s, sid, D.SendFails(sid));
  }

  lemma Delivered(s: D.State, res: D.Response)
    requires D.Inv(s) && s.handled == [res] && res.id in s.sessions
    ensures var sessions := if res.valid then s.sessions[res.id := D.Finish(s.sessions[res.id])] else s.sessions;
      D.Step(s, D.Deliver(0)) == D.State(s.smap, sessions, s.resChan, [])
    ensures D.Inv(D.Step(s, D.Deliver(0))) && (res.valid ==> s.sessions[res.id].finished == 0)
  {
    D.DeliverKeepsInv(s, 0);
  }

  lemma TakenLate(s: D.State)
    requires D.Inv(s) && s.resChan != [] && s.resChan[0].id !in s.smap
    ensures D.Step(s, D.RecvLocked(0)) == D.State(s.smap, s.sessions, s.resChan[1..], s.handled)
  {
    assert Remove(s.resChan, 0) == s.resChan[1..];
  }

  lemma TakenFound(s: D.State)
    requires D.Inv(s) && s.resChan != [] && s.resChan[0].id in s.smap
    ensures var r := s.resChan[0];
      && r.id in s.sessions
      && D.Step(s, D.RecvLocked(0)) ==
           D.State(s.smap - {r.id}, s.sessions[r.id := D.StoppedBy(s.sessions[r.id], r)],
             s.resChan[1..], s.handled + [r])
  {
    assert Remove(s.resChan, 0) == s.resChan[1..];
  }

  lemma StillGone(s: D.State, es: seq<D.Event>, taken: seq<D.Response>)
    requires forall r | r in taken :: r.id in s.sessions && r.id !in s.smap
    ensures forall r | r in taken :: r.id in D.Run(s, es).sessions && r.id !in D.Run(s, es).smap
  {
    forall r | r in taken ensures r.id in D.Run(s, es).sessions && r.id !in D.Run(s, es).smap {
      RunKeepsGone(s, es, r.id);
    }
  }

  // ----- what the callers do, as events

  function OpenEvents(sid: D.Id, kind: D.Kind, others: seq<D.Event>): seq<D.Event> {
    [D.Register(sid, kind)] + others + [D.StartTimer(sid)]
  }

  /** A request from its session to the end of sending. */
  function SendEvents(sid: D.Id, kind: D.Kind, ok: bool, others: seq<D.Event>, more: seq<D.Event>): seq<D.Event> {
    OpenEvents(sid, kind, others) + more + [if ok then D.SendOk(sid) else D.SendFails(sid)]
  }

  lemma SendRun(s: D.State, sid: D.Id, kind: D.Kind, ok: bool, others: seq<D.Event>, more: seq<D.Event>)
    ensures D.Run(s, SendEvents(sid, kind, ok, others, more)) ==
      D.Step(D.Run(D.Run(s, OpenEvents(sid, kind, others)), more), if ok then D.SendOk(sid) else D.SendFails(sid))
  {
    D.RunAppend(s, OpenEvents(sid, kind, others), more);
    D.RunOneMore(s, OpenEvents(sid, kind, others) + more, if ok then D.SendOk(sid) else D.SendFails(sid));
  }

  function Flatten(waits: seq<seq<D.Event>>): seq<D.Event> {
    if waits == [] then [] else Flatten(waits[..|waits| - 1]) + waits[|waits| - 1]
  }

  predicate EndsWith(es: seq<D.Event>, fs: seq<D.Event>) {
    |fs| <= |es| && es[|es| - |fs|..] == fs
  }

  lemma FlattenOneMore(waits: seq<seq<D.Event>>, k: nat)
    requires k < |waits|
    ensures Flatten(waits[..k + 1]) == Flatten(waits[..k]) + waits[k]
  {
    assert waits[..k + 1][..k] == waits[..k];
  }

  class SDK {
    var smap: set<D.Id>
    var sessions: map<D.Id, D.Session>
    var resChan: seq<D.Response>
    var handled: seq<D.Response>

    ghost function View(): D.State
      reads this
    {
      D.State(smap, sessions, resChan, handled)
    }

    ghost predicate Valid()
      reads this
    {
      D.Inv(View())
    }

    constructor ()
      ensures Valid() && View() == D.INITIAL
    {
      smap, sessions, resChan, handled := {}, map[], [], [];
    }

    /** Steps of the other goroutines and of the network. */
    method Others(steps: seq<D.Event>)
      requires Valid()
      modifies this
      ensures Valid() && View() == D.Run(old(View()), steps)
    {
      var s := D.Run(D.State(smap, sessions, resChan, handled), steps);
      D.RunKeepsInv(View(), steps);
      smap, sessions, resChan, handled := s.smap, s.sessions, s.resChan, s.handled;
    }

    /** Records a session and starts its timer. */
    method Open(sid: D.Id, kind: D.Kind, others: seq<D.Event>)
      requires Valid() && sid !in sessions && AllElsewhere(others, sid)
      modifies this
      ensures Valid() && View() == D.Run(old(View()), OpenEvents(sid, kind, others))
      ensures Started(View(), sid) && sessions[sid].caller.Sending? && sessions[sid].kind == kind
    {
      ghost var s := View();
      ghost var es := [D.Register(sid, kind)];
      D.RunOneMore(s, [], es[0]);
      D.RegisterKeepsInv(s, sid, kind);
      sessions := sessions[sid := D.Session(kind, D.NotStarted, D.Sending, false, false, 0, 0, 0, 0, 0)];
      smap := smap + {sid};
      assert [] + es == es;
      RunKeepsRecorded(View(), others, sid);
      D.RunAppend(s, es, others);
      Others(others);
      D.RunOneMore(s, es + others, D.StartTimer(sid));
      D.StepKeepsInv(View(), D.StartTimer(sid));
      sessions := sessions[sid := sessions[sid].(timer := D.Waiting)];
    }

    /** Under the lock: the session of a request that was not sent leaves the map. */
    method GiveUp(sid: D.Id)
      requires Valid() && Started(View(), sid) && sessions[sid].caller.Sending?
      modifies `sessions, `smap
      ensures Valid() && View() == D.Step(old(View()), D.SendFails(sid))
      ensures Started(View(), sid) && sessions[sid].caller.Returned? && sid !in smap
    {
      SendLost(View(), sid);
      sessions := sessions[sid := D.GivenUp(sessions[sid], sid in smap)];
      smap := smap - {sid};
    }

    /** A synchronous caller goes on to wait, an asynchronous one returns. */
    method GoOn(sid: D.Id)
      requires Valid() && Started(View(), sid) && sessions[sid].caller.Sending?
      modifies `sessions
      ensures Valid() && View() == D.Step(old(View()), D.SendOk(sid)) && Started(View(), sid)
      ensures sessions[sid].caller == if old(sessions)[sid].kind.Sync? then D.Blocked else D.Returned
    {
      SendSucceeded(View(), sid);
      var x := sessions[sid];
      sessions := sessions[sid := x.(caller := if x.kind.Sync? then D.Blocked else D.Returned)];
    }

    /** Both kinds of request begin alike: the session is recorded, its timer started, and the
        request sent. */
    method Send(sid: D.Id, kind: D.Kind, ok: bool, others: seq<D.Event>, more: seq<D.Event>)
      requires Valid() && sid !in sessions && AllElsewhere(others, sid) && AllElsewhere(more, sid)
      modifies this
      ensures Valid() && View() == D.Run(old(View()), SendEvents(sid, kind, ok, others, more))
      ensures Started(View(), sid) && (!ok ==> sid !in smap)
      ensures sessions[sid].caller == if ok && kind.Sync? then D.Blocked else D.Returned
    {
      SendRun(View(), sid, kind, ok, others, more);
      Open(sid, kind, others);
      RunKeepsCaller(View(), more, sid);
      Others(more);
      if ok {
        GoOn(sid);
      } else {
        GiveUp(sid);
      }
    }

    /** An asynchronous request, whatever the other goroutines do meanwhile. Its session's timer
        runs before the request is encoded; when it cannot be encoded, or not be sent, the
        session leaves the map. Only a failed sending is reported as an error. Afterwards the
        request can be completed exactly if its completion has not been given up. */
    method StartDataOps(sid: D.Id, encoded: bool, sendOk: bool, others: seq<D.Event>, more: seq<D.Event>)
      returns (failed: bool)
      requires Valid() && sid !in sessions && AllElsewhere(others, sid) && AllElsewhere(more, sid)
      modifies this
      ensures Valid() && View() == D.Run(old(View()), SendEvents(sid, D.Async, encoded && sendOk, others, more))
      ensures Started(View(), sid) && sessions[sid].caller.Returned?
      ensures failed <==> encoded && !sendOk
      ensures failed || !encoded ==> sid !in smap
      ensures D.CanFinish(View(), sid) <==> sessions[sid].dropped == 0
    {
      Send(sid, D.Async, encoded && sendOk, others, more);
      D.CanFinishIffNotDropped(View(), sid);
      if !encoded {
        return false;
      }
      failed := !sendOk;
    }

    /** The caller takes the value that its session's channel holds. */
    method TakeResult(sid: D.Id)
      requires Valid() && Started(View(), sid) && sessions[sid].caller.Blocked? && sessions[sid].sync > 0
      modifies this
      ensures Valid() && View() == D.Step(old(View()), D.CallerReturns(sid))
      ensures Started(View(), sid) && sessions[sid].caller.Returned?
      ensures sid !in smap && sessions[sid].finished == 1 && sessions[sid].dropped == 0
    {
      assert D.SessionInv(View(), sid);
      D.SessionStepKeepsInv(View(), sid, D.CallerReturns(sid));
      var x := sessions[sid];
      sessions := sessions[sid := x.(sync := x.sync - 1, caller := D.Returned)];
    }

    /** Waits for the result while the others take the steps in `waits`, as long as needed. */
    method Await(sid: D.Id, waits: seq<seq<D.Event>>) returns (done: bool, used: nat)
      requires Valid() && Started(View(), sid) && sessions[sid].caller.Blocked?
      requires forall k | 0 <= k < |waits| :: AllElsewhere(waits[k], sid)
      modifies this
      ensures used <= |waits| && (!done ==> used == |waits|)
      ensures Valid() && View() == D.Run(old(View()), Flatten(waits[..used]))
      ensures Started(View(), sid) && sessions[sid].caller.Blocked? && (done <==> sessions[sid].sync > 0)
    {
      ghost var s := View();
      used := 0;
      while sessions[sid].sync == 0
        invariant used <= |waits| && Valid() && View() == D.Run(s, Flatten(waits[..used]))
        invariant Started(View(), sid) && sessions[sid].caller.Blocked?
        decreases |waits| - used
      {
        if used == |waits| {
          return false, used;
        }
        RunKeepsCaller(View(), waits[used], sid);
        D.RunAppend(s, Flatten(waits[..used]), waits[used]);
        FlattenOneMore(waits, used);
        Others(waits[used]);
        used := used + 1;
      }
      done := true;
    }

    /** A synchronous request, whatever the other goroutines do before it is sent and while it
        waits; `ok` says whether it could be encoded and sent. It returns an answer only once its
        session was completed, exactly once, and then at once; when all the others' steps did not
        bring a result it is still waiting, and can return later exactly if the completion was
        not given up. */
    method DoDataOps(sid: D.Id, ok: bool, others: seq<D.Event>, more: seq<D.Event>, waits: seq<seq<D.Event>>)
      returns (outcome: Outcome, used: nat)
      requires Valid() && sid !in sessions && AllElsewhere(others, sid) && AllElsewhere(more, sid)
      requires forall k | 0 <= k < |waits| :: AllElsewhere(waits[k], sid)
      modifies this
      ensures used <= |waits| && Valid() && Started(View(), sid)
      ensures View() == D.Run(old(View()), SendEvents(sid, D.Sync, ok, others, more) + Flatten(waits[..used]) +
        if outcome.Completed? then [D.CallerReturns(sid)] else [])
      ensures outcome.SendFailed? <==> !ok
      ensures outcome.SendFailed? ==> sid !in smap && sessions[sid].caller.Returned?
      ensures outcome.Completed? ==>
        sessions[sid].caller.Returned? && sid !in smap && sessions[sid].finished == 1 && sessions[sid].dropped == 0
      ensures outcome.Waiting? ==>
        && used == |waits| && sessions[sid].caller.Blocked? && sessions[sid].sync == 0
        && (D.CanReturn(View(), sid) <==> sessions[sid].dropped == 0)
    {
      ghost var s, es := View(), SendEvents(sid, D.Sync, ok, others, more);
      Send(sid, D.Sync, ok, others, more);
      if !ok {
        assert es + Flatten(waits[..0]) + [] == es;
        return SendFailed, 0;
      }
      var done;
      done, used := Await(sid, waits);
      D.RunAppend(s, es, Flatten(waits[..used]));
      es := es + Flatten(waits[..used]);
      if !done {
        D.CallerReturnsIffNotDropped(View(), sid);
        assert es + [] == es;
        return Waiting, used;
      }
      D.RunOneMore(s, es, D.CallerReturns(sid));
      TakeResult(sid);
      outcome := Completed;
    }

    method Go(sid: D.Id)
      requires Valid() && sid in sessions && sessions[sid].timer.Waiting? && sessions[sid].tq > 0
      modifies `sessions
      ensures Valid() && View() == D.Step(old(View()), D.TimerGoes(sid))
      ensures sid in sessions && sessions[sid].timer.Exited?
    {
      Woken(View(), sid);
      var x := sessions[sid];
      sessions := sessions[sid := x.(tq := x.tq - 1, timer := D.Exited)];
    }

    method RunsOut(sid: D.Id)
      requires Valid() && sid in sessions && sessions[sid].timer.Waiting? && sessions[sid].fired
      modifies `sessions
      ensures Valid() && View() == D.Step(old(View()), D.TimerExpires(sid))
      ensures sid in sessions && sessions[sid].timer.Expired?
    {
      RunOut(View(), sid);
      sessions := sessions[sid := sessions[sid].(timer := D.Expired)];
    }

    /** The waiting timer goroutine receives from one of its two channels; if both hold a value,
        either may be chosen. */
    method Wake(sid: D.Id, goFirst: bool) returns (ghost e: D.Event)
      requires Valid() && sid in sessions && sessions[sid].timer.Waiting?
      requires sessions[sid].tq > 0 || sessions[sid].fired
      modifies this
      ensures Valid() && View() == D.Step(old(View()), e) && sid in sessions
      ensures sessions[sid].timer.Exited? || sessions[sid].timer.Expired?
    {
      var x := sessions[sid];
      if x.tq > 0 && (goFirst || !x.fired) {
        e := D.TimerGoes(sid);
        Go(sid);
      } else {
        e := D.TimerExpires(sid);
        RunsOut(sid);
      }
    }

    /** The timer goroutine's wait: others take the steps in `waits`, as long as needed, until it
        is told to go or the timer has run out. */
    method AwaitTimer(sid: D.Id, waits: seq<seq<D.Event>>, goFirst: bool) returns (used: nat, ghost es: seq<D.Event>)
      requires Valid() && sid in sessions && sessions[sid].timer.Waiting?
      requires forall k | 0 <= k < |waits| :: NoneTimer(waits[k], sid)
      modifies this
      ensures used <= |waits| && Flatten(waits[..used]) <= es
      ensures Valid() && View() == D.Run(old(View()), es) && sid in sessions
      ensures sessions[sid].timer.Waiting? || sessions[sid].timer.Exited? || sessions[sid].timer.Expired?
      ensures sessions[sid].timer.Waiting? ==> used == |waits| && sessions[sid].tq == 0 && !sessions[sid].fired
    {
      ghost var s := View();
      used, es := 0, [];
      while sessions[sid].tq == 0 && !sessions[sid].fired
        invariant used <= |waits| && es == Flatten(waits[..used]) && Valid() && View() == D.Run(s, es)
        invariant sid in sessions && sessions[sid].timer.Waiting?
        decreases |waits| - used
      {
        if used == |waits| {
          return;
        }
        RunKeepsTimer(View(), waits[used], sid);
        D.RunAppend(s, es, waits[used]);
        FlattenOneMore(waits, used);
        es := es + waits[used];
        Others(waits[used]);
        used := used + 1;
      }
      ghost var e := Wake(sid, goFirst);
      D.RunOneMore(s, es, e);
      es := es + [e];
    }

    /** Under the lock: whoever still finds the session in the map takes it out and is the one
        to report the timeout. */
    method TakeTimeout(sid: D.Id) returns (found: bool)
      requires Valid() && sid in sessions && sessions[sid].timer.Expired?
      modifies this
      ensures Valid() && View() == D.Step(old(View()), D.TimerLocked(sid)) && sid in sessions && sid !in smap
      ensures (found <==> sid in old(smap)) && sessions[sid].timer == if found then D.Notify else D.Exited
    {
      TimedOut(View(), sid);
      found := sid in smap;
      sessions := sessions[sid := sessions[sid].(timer := if found then D.Notify else D.Exited)];
      if found {
        smap := smap - {sid};
      }
    }

    method ReportTimeout(sid: D.Id)
      requires Valid() && sid in sessions && sessions[sid].timer.Notify?
      modifies this
      ensures Valid() && View() == D.Step(old(View()), D.TimerNotifies(sid)) && smap == old(smap)
      ensures sid in sessions && sessions[sid].timer.Exited? && sessions[sid].finished == 1
    {
      assert D.SessionInv(View(), sid);
      D.SessionStepKeepsInv(View(), sid, D.TimerNotifies(sid));
      sessions := sessions[sid := D.Finish(sessions[sid]).(timer := D.Exited)];
    }

    /** What the timer goroutine does once its timer has run out. */
    method AfterTimeout(sid: D.Id, more: seq<D.Event>, between: seq<D.Event>)
      returns (reported: bool, ghost es: seq<D.Event>)
      requires Valid() && sid in sessions && sessions[sid].timer.Expired?
      requires NoneTimer(more, sid) && NoneTimer(between, sid)
      modifies this
      ensures Valid() && View() == D.Run(old(View()), es) && sid in sessions
      ensures sessions[sid].timer.Exited? && sid !in smap && (reported ==> sessions[sid].finished == 1)
    {
      ghost var s := View();
      RunKeepsTimer(View(), more, sid);
      Others(more);
      D.RunOneMore(s, more, D.TimerLocked(sid));
      es := more + [D.TimerLocked(sid)];
      reported := TakeTimeout(sid);
      if !reported {
        return;
      }
      RunKeepsTimer(View(), between, sid);
      RunKeepsGone(View(), between, sid);
      D.RunAppend(s, es, between);
      Others(between);
      es := es + between;
      D.RunOneMore(s, es, D.TimerNotifies(sid));
      es := es + [D.TimerNotifies(sid)];
      ReportTimeout(sid);
    }

    /** A session's timer goroutine. When it ends its session is out of the map; what it
        reported is the session's only completion; and it ends unless it has neither been told
        to go nor seen its timer run out after all the others' steps. */
    method TimerJob(sid: D.Id, waits: seq<seq<D.Event>>, goFirst: bool, more: seq<D.Event>, between: seq<D.Event>)
      returns (reported: bool, used: nat, ghost es: seq<D.Event>)
      requires Valid() && sid in sessions && sessions[sid].timer.Waiting?
      requires NoneTimer(more, sid) && NoneTimer(between, sid)
      requires forall k | 0 <= k < |waits| :: NoneTimer(waits[k], sid)
      modifies this
      ensures Valid() && View() == D.Run(old(View()), es) && sid in sessions
      ensures used <= |waits| && Flatten(waits[..used]) <= es
      ensures
        || sessions[sid].timer.Exited?
        || (sessions[sid].timer.Waiting? && used == |waits| && sessions[sid].tq == 0 && !sessions[sid].fired)
      ensures sessions[sid].timer.Exited? ==> sid !in smap
      ensures reported ==> sessions[sid].timer.Exited? && sessions[sid].finished == 1 && sessions[sid].dropped == 0
    {
      ghost var s := View();
      used, es := AwaitTimer(sid, waits, goFirst);
      reported := false;
      if sessions[sid].timer.Expired? {
        ghost var tail;
        reported, tail := AfterTimeout(sid, more, between);
        D.RunAppend(s, es, tail);
        es := es + tail;
      }
      assert D.SessionInv(View(), sid);
    }

    /** Under the lock: a response whose session is gone is late; otherwise the session leaves
        the map and its timer is told to go. */
    method TakeResponse() returns (res: D.Response, found: bool)
      requires Valid() && resChan != []
      modifies this
      ensures Valid() && View() == D.Step(old(View()), D.RecvLocked(0))
      ensures res == old(resChan)[0] && res.id in sessions && res.id !in smap
      ensures found <==> res.id in old(smap)
      ensures handled == old(handled) + if found then [res] else []
    {
      D.RecvKeepsInv(View(), 0);
      res := resChan[0];
      assert res in resChan;
      found := res.id in smap;
      if found {
        TakenFound(View());
        var x := sessions[res.id];
        resChan := resChan[1..];
        smap := smap - {res.id};
        sessions := sessions[res.id := D.StoppedBy(x, res)];
        handled := handled + [res];
      } else {
        TakenLate(View());
        resChan := resChan[1..];
      }
    }

    /** What follows the lock: an invalid response is abandoned, a valid one completes. */
    method Answer(res: D.Response)
      requires Valid() && handled == [res] && res.id in sessions
      modifies this
      ensures Valid() && View() == D.Step(old(View()), D.Deliver(0)) && handled == []
      ensures res.id in sessions && smap == old(smap) && (res.valid ==> sessions[res.id].finished == 1)
    {
      Delivered(View(), res);
      handled := [];
      if !res.valid {
        return;
      }
      var x := sessions[res.id];
      ghost var finished := D.Finish(x);
      if x.kind.Sync? {
        x := x.(sync := x.sync + 1);
      }
      x := x.(finished := x.finished + 1);
      assert x == finished;
      sessions := sessions[res.id := x];
    }

    /** One response: the locked section, steps of others, and the answer. */
    method RecvOne(between: seq<D.Event>) returns (res: D.Response, ghost es: seq<D.Event>)
      requires Valid() && resChan != [] && handled == [] && NoneReceiving(between)
      modifies this
      ensures Valid() && View() == D.Run(old(View()), es) && handled == []
      ensures res == old(resChan)[0] && res.id in sessions && res.id !in smap
      ensures res.valid && res.id in old(smap) ==> sessions[res.id].finished == 1
    {
      ghost var s := View();
      D.RunOneMore(s, [], D.RecvLocked(0));
      es := [] + [D.RecvLocked(0)];
      var found;
      res, found := TakeResponse();
      if !found {
        return;
      }
      RunKeepsHandled(View(), between);
      RunKeepsGone(View(), between, res.id);
      D.RunAppend(s, es, between);
      Others(between);
      es := es + between;
      D.RunOneMore(s, es, D.Deliver(0));
      es := es + [D.Deliver(0)];
      Answer(res);
    }

    /** The receiving goroutine, until `rounds` is used up or no response waits. Every response it
        took has settled its session: completed by it, completed or about to be completed by
        the timeout, or given up; and none is left half handled. */
    method RecvJob(rounds: seq<(seq<D.Event>, seq<D.Event>)>) returns (taken: seq<D.Response>, ghost es: seq<D.Event>)
      requires Valid() && handled == []
      requires forall k | 0 <= k < |rounds| :: NoneReceiving(rounds[k].0) && NoneReceiving(rounds[k].1)
      modifies this
      ensures Valid() && View() == D.Run(old(View()), es) && handled == []
      ensures |taken| <= |rounds| && (|taken| < |rounds| ==> resChan == [] && EndsWith(es, rounds[|taken|].0))
      ensures forall r | r in taken ::
        && r.id in sessions && r.id !in smap
        && sessions[r.id].finished + sessions[r.id].dropped + One(sessions[r.id].timer.Notify?) == 1
    {
      ghost var s := View();
      taken, es := [], [];
      var k := 0;
      while k < |rounds|
        invariant |taken| == k <= |rounds| && Valid() && handled == [] && View() == D.Run(s, es)
        invariant forall r | r in taken :: r.id in sessions && r.id !in smap
      {
        StillGone(View(), rounds[k].0, taken);
        RunKeepsHandled(View(), rounds[k].0);
        D.RunAppend(s, es, rounds[k].0);
        es := es + rounds[k].0;
        Others(rounds[k].0);
        if resChan == [] {
          break;
        }
        var res;
        ghost var more;
        ghost var before := View();
        res, more := RecvOne(rounds[k].1);
        StillGone(before, more, taken);
        D.RunAppend(s, es, more);
        taken, es := taken + [res], es + more;
        k := k + 1;
      }
      forall r | r in taken
        ensures sessions[r.id].finished + sessions[r.id].dropped + One(sessions[r.id].timer.Notify?) == 1
      {
        assert D.SessionInv(View(), r.id);
      }
    }
  }
}
