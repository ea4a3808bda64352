/** Requests to the data service. Each has a session that a response and a timeout race to
    complete; the session map is changed only under its lock, so each locked section is one
    step. */
module DataSession {
  import opened Counting

  type Id = nat

  /** A synchronous caller waits for the result; an asynchronous one gets a callback. */
  datatype Kind = Sync | Async

  /** Where a session's timer goroutine is: not started, waiting for either channel, past
      the timer and about to take the lock, about to report the timeout, or gone. */
  datatype TimerPlace = NotStarted | Waiting | Expired | Notify | Exited

  /** Where the request's caller is: not yet done sending, waiting for a synchronous result,
      or returned. */
  datatype CallerPlace = Sending | Blocked | Returned

  datatype Session = Session(
    kind: Kind,
    timer: TimerPlace,
    caller: CallerPlace,
    fired: bool,       // the timer's channel holds a value
    stopped: bool,
    tq: nat,           // values in the channel that tells the goroutine to go
    sync: nat,         // values in the channel a synchronous caller waits on
    tqSends: nat,
    finished: nat,     // results sent on sync, or callbacks queued
    dropped: nat)      // completions given up: the send failed, or the response was invalid

  /** A response; an invalid one cannot be decoded or holds no result. */
  datatype Response = Response(id: Id, valid: bool)

  datatype State = State(
    smap: set<Id>,
    sessions: map<Id, Session>,
    resChan: seq<Response>,
    handled: seq<Response>)   // taken out of the map, result not delivered yet

  const INITIAL := State({}, map[], [], [])

  datatype Event =
    | Register(id: Id, kind: Kind)
    | StartTimer(id: Id)
    | SendOk(id: Id)
    | SendFails(id: Id)
    | Arrive(r: Response)
    | RecvLocked(i: nat)
    | Deliver(i: nat)
    | TimerFires(id: Id)
    | TimerGoes(id: Id)
    | TimerExpires(id: Id)
    | TimerLocked(id: Id)
    | TimerNotifies(id: Id)
    | CallerReturns(id: Id)

  function Put(s: State, id: Id, x: Session): State {
    s.(sessions := s.sessions[id := x])
  }

  /** A session whose response has come: its timer is stopped and its goroutine told to go. */
  function StoppedBy(x: Session, r: Response): Session {
    x.(stopped := true, tq := x.tq + 1, tqSends := x.tqSends + 1, dropped := x.dropped + if r.valid then 0 else 1)
  }

  /** A session whose request was not sent: its completion is given up if nobody has it yet. */
  function GivenUp(x: Session, inMap: bool): Session {
    x.(caller := Returned, dropped := x.dropped + One(inMap))
  }

  /** Delivers a result or timeout: to the waiting caller, or as a queued callback. */
  function Finish(x: Session): Session {
    x.(finished := x.finished + 1, sync := if x.kind.Sync? then x.sync + 1 else x.sync)
  }

  /** The steps of one session's caller and timer goroutine. */
  function SessionStep(s: State, id: Id, e: Event): State
    requires id in s.sessions
  {
    var x := s.sessions[id];
    match e
    case StartTimer(_) => if x.timer.NotStarted? then Put(s, id, x.(timer := Waiting)) else s
    case SendOk(_) =>
      if x.caller.Sending? && !x.timer.NotStarted?
      then Put(s, id, x.(caller := if x.kind.Sync? then Blocked else Returned)) else s
    case SendFails(_) =>
      if x.caller.Sending? && !x.timer.NotStarted?
      then
        Put(s, id, GivenUp(x, id in s.smap)).(smap := s.smap - {id})
      else s
    case TimerFires(_) =>
      if !x.timer.NotStarted? && !x.stopped && !x.fired then Put(s, id, x.(fired := true)) else s
    case TimerGoes(_) =>
      if x.timer.Waiting? && x.tq > 0 then Put(s, id, x.(tq := x.tq - 1, timer := Exited)) else s
    case TimerExpires(_) =>
      if x.timer.Waiting? && x.fired then Put(s, id, x.(timer := Expired)) else s
    case TimerLocked(_) =>
      if !x.timer.Expired? then s
      else if id in s.smap then Put(s, id, x.(timer := Notify)).(smap := s.smap - {id})
      else Put(s, id, x.(timer := Exited))
    case TimerNotifies(_) =>
      if x.timer.Notify? then Put(s, id, Finish(x).(timer := Exited)) else s
    case CallerReturns(_) =>
      if x.caller.Blocked? && x.sync > 0 then Put(s, id, x.(sync := x.sync - 1, caller := Returned)) else s
    case _ => s
  }

  /** A step that is not possible changes nothing. */
  function Step(s: State, e: Event): State {
    match e
    case Register(id, kind) =>
      if id in s.sessions then s
      else Put(s, id, Session(kind, NotStarted, Sending, false, false, 0, 0, 0, 0, 0)).(smap := s.smap + {id})
    case Arrive(r) =>
      if r.id in s.sessions && !s.sessions[r.id].timer.NotStarted? then s.(resChan := s.resChan + [r]) else s
    case RecvLocked(i) =>
      if i >= |s.resChan| then s
      else
        var r := s.resChan[i];
        var t := s.(resChan := Remove(s.resChan, i));
        if r.id !in s.smap || r.id !in s.sessions then t
        else
          Put(t, r.id, StoppedBy(s.sessions[r.id], r)).(smap := s.smap - {r.id}, handled := s.handled + [r])
    case Deliver(i) =>
      if i >= |s.handled| then s
      else
        var r := s.handled[i];
        var t := s.(handled := Remove(s.handled, i));
        if !r.valid || r.id !in s.sessions then t else Put(t, r.id, Finish(s.sessions[r.id]))
    case StartTimer(id) => if id in s.sessions then SessionStep(s, id, e) else s
    case SendOk(id) => if id in s.sessions then SessionStep(s, id, e) else s
    case SendFails(id) => if id in s.sessions then SessionStep(s, id, e) else s
    case TimerFires(id) => if id in s.sessions then SessionStep(s, id, e) else s
    case TimerGoes(id) => if id in s.sessions then SessionStep(s, id, e) else s
    case TimerExpires(id) => if id in s.sessions then SessionStep(s, id, e) else s
    case TimerLocked(id) => if id in s.sessions then SessionStep(s, id, e) else s
    case TimerNotifies(id) => if id in s.sessions then SessionStep(s, id, e) else s
    case CallerReturns(id) => if id in s.sessions then SessionStep(s, id, e) else s
  }

  function Run(s: State, es: seq<Event>): State
    decreases |es|
  {
    if es == [] then s else Run(Step(s, es[0]), es[1..])
  }

  lemma {:induction false} RunAppend(s: State, es: seq<Event>, fs: seq<Event>)
    ensures Run(s, es + fs) == Run(Run(s, es), fs)
    decreases |es|
  {
    if es == [] {
      assert es + fs == fs;
    } else {
      assert (es + fs)[1..] == es[1..] + fs;
      RunAppend(Step(s, es[0]), es[1..], fs);
    }
  }

  lemma RunOneMore(s: State, es: seq<Event>, e: Event)
    ensures Run(s, es + [e]) == Step(Run(s, es), e)
  {
    RunAppend(s, es, [e]);
    assert Run(Step(Run(s, es), e), []) == Step(Run(s, es), e);
  }

  // ----- the race

  function ValidFor(id: Id): Response -> bool {
    (r: Response) => r.id == id && r.valid
  }

  /** The right to complete a session exists exactly once: in the map, with a response just
      taken, with the timeout about to be reported, used, or given up. */
  function Rights(s: State, id: Id): nat
    requires id in s.sessions
  {
    var x := s.sessions[id];
    One(id in s.smap) + Count(s.handled, ValidFor(id)) + One(x.timer.Notify?) + x.finished + x.dropped
  }

  ghost predicate SessionInv(s: State, id: Id)
    requires id in s.sessions
  {
    var x := s.sessions[id];
    && Rights(s, id) == 1
    && x.tq <= x.tqSends && (x.stopped <==> x.tqSends == 1)
    && (x.timer.NotStarted? || x.timer.Waiting? ==> x.tq == x.tqSends)
    && (x.timer.NotStarted? ==> x.tqSends == 0)
    && x.tqSends + One(id in s.smap) <= 1
    && x.sync <= (if x.kind.Sync? then x.finished else 0)
    && (id in s.smap ==> !x.stopped && (x.timer.NotStarted? || x.timer.Waiting? || x.timer.Expired?))
    && (!x.caller.Returned? && x.kind.Sync? ==> x.sync == x.finished)
    && (x.caller.Blocked? ==> x.kind.Sync? && !x.timer.NotStarted?)
  }

  ghost predicate Inv(s: State) {
    && s.smap <= s.sessions.Keys
    && (forall r | r in s.handled :: r.id in s.sessions)
    && (forall r | r in s.resChan :: r.id in s.sessions && !s.sessions[r.id].timer.NotStarted?)
    && (forall id {:trigger s.sessions[id]} | id in s.sessions :: SessionInv(s, id))
  }

  lemma OwnSession(s: State, id: Id, e: Event)
    requires id in s.sessions && SessionInv(s, id)
    ensures id in SessionStep(s, id, e).sessions && SessionInv(SessionStep(s, id, e), id)
  {
  }

  lemma OtherSession(s: State, id: Id, e: Event, k: Id)
    requires id in s.sessions && k in s.sessions && k != id && SessionInv(s, k)
    ensures k in SessionStep(s, id, e).sessions && SessionInv(SessionStep(s, id, e), k)
  {
  }

  lemma SessionStepFrame(s: State, id: Id, e: Event)
    requires id in s.sessions
    ensures var t := SessionStep(s, id, e);
      && t.sessions.Keys == s.sessions.Keys && t.smap <= s.smap && t.handled == s.handled && t.resChan == s.resChan
      && forall k | k in s.sessions && !s.sessions[k].timer.NotStarted? :: !t.sessions[k].timer.NotStarted?
  {
  }

  lemma SessionStepKeepsInv(s: State, id: Id, e: Event)
    requires Inv(s) && id in s.sessions
    ensures Inv(SessionStep(s, id, e))
  {
    var t := SessionStep(s, id, e);
    SessionStepFrame(s, id, e);
    forall k | k in t.sessions ensures SessionInv(t, k) {
      assert SessionInv(s, k);
      if k == id {
        OwnSession(s, id, e);
      } else {
        OtherSession(s, id, e, k);
      }
    }
  }

  lemma RegisterKeepsInv(s: State, id: Id, kind: Kind)
    requires Inv(s) && id !in s.sessions
    ensures Inv(Step(s, Register(id, kind)))
  {
    var t := Step(s, Register(id, kind));
    forall k | k in t.sessions ensures SessionInv(t, k) {
      if k == id {
        CountZero(s.handled, ValidFor(id));
        assert forall i | 0 <= i < |s.handled| :: s.handled[i] in s.handled;
      } else {
        assert SessionInv(s, k);
      }
    }
  }

  /** Taking a response: whoever deletes the session from the map has the right to complete
      it, and finds the timer's channel empty, so the send under the lock cannot block. */
  lemma RecvKeepsInv(s: State, i: nat)
    requires Inv(s) && i < |s.resChan|
    ensures Inv(Step(s, RecvLocked(i)))
    ensures s.resChan[i].id in s.smap ==>
      s.sessions[s.resChan[i].id].tq == 0 && !s.sessions[s.resChan[i].id].timer.NotStarted?
  {
    var t := Step(s, RecvLocked(i));
    var r := s.resChan[i];
    assert r in s.resChan;
    assert forall q | q in Remove(s.resChan, i) :: q in s.resChan;
    if r.id in s.smap {
      assert SessionInv(s, r.id);
    }
    forall k | k in t.sessions ensures SessionInv(t, k) {
      assert SessionInv(s, k);
      if r.id in s.smap {
        CountAppend(s.handled, r, ValidFor(k));
      }
    }
  }

  lemma DeliverSession(s: State, i: nat, k: Id)
    requires i < |s.handled| && s.handled[i].id in s.sessions && k in s.sessions && SessionInv(s, k)
    ensures k in Step(s, Deliver(i)).sessions && SessionInv(Step(s, Deliver(i)), k)
  {
    CountRemove(s.handled, i, ValidFor(k));
  }

  lemma DeliverKeepsInv(s: State, i: nat)
    requires Inv(s) && i < |s.handled|
    ensures Inv(Step(s, Deliver(i)))
    ensures var r := s.handled[i]; r.valid ==> s.sessions[r.id].finished == 0 && s.sessions[r.id].sync == 0
  {
    var t := Step(s, Deliver(i));
    var r := s.handled[i];
    assert r in s.handled;
    assert forall q | q in Remove(s.handled, i) :: q in s.handled;
    assert SessionInv(s, r.id);
    CountRemove(s.handled, i, ValidFor(r.id));
    forall k | k in t.sessions ensures SessionInv(t, k) {
      assert SessionInv(s, k);
      DeliverSession(s, i, k);
    }
  }

  lemma ArriveKeepsInv(s: State, r: Response)
    requires Inv(s)
    ensures Inv(Step(s, Arrive(r)))
  {
    var t := Step(s, Arrive(r));
    forall k | k in t.sessions ensures SessionInv(t, k) {
      assert SessionInv(s, k);
    }
  }

  lemma StepKeepsInv(s: State, e: Event)
    requires Inv(s)
    ensures Inv(Step(s, e))
  {
    match e
    case Register(id, kind) => if id !in s.sessions { RegisterKeepsInv(s, id, kind); }
    case Arrive(r) => ArriveKeepsInv(s, r);
    case RecvLocked(i) => if i < |s.resChan| { RecvKeepsInv(s, i); }
    case Deliver(i) => if i < |s.handled| { DeliverKeepsInv(s, i); }
    case StartTimer(id) => if id in s.sessions { SessionStepKeepsInv(s, id, e); }
    case SendOk(id) => if id in s.sessions { SessionStepKeepsInv(s, id, e); }
    case SendFails(id) => if id in s.sessions { SessionStepKeepsInv(s, id, e); }
    case TimerFires(id) => if id in s.sessions { SessionStepKeepsInv(s, id, e); }
    case TimerGoes(id) => if id in s.sessions { SessionStepKeepsInv(s, id, e); }
    case TimerExpires(id) => if id in s.sessions { SessionStepKeepsInv(s, id, e); }
    case TimerLocked(id) => if id in s.sessions { SessionStepKeepsInv(s, id, e); }
    case TimerNotifies(id) => if id in s.sessions { SessionStepKeepsInv(s, id, e); }
    case CallerReturns(id) => if id in s.sessions { SessionStepKeepsInv(s, id, e); }
  }

  lemma {:induction false} RunKeepsInv(s: State, es: seq<Event>)
    requires Inv(s)
    ensures Inv(Run(s, es))
    decreases |es|
  {
    if es != [] {
      StepKeepsInv(s, es[0]);
      RunKeepsInv(Step(s, es[0]), es[1..]);
    }
  }

  /** In every run, over all interleavings: each session is completed at most once, by the
      response or by the timeout but never both, and its two channels of capacity one never
      hold more than one value. */
  lemma CompletedAtMostOnce(es: seq<Event>, id: Id)
    requires id in Run(INITIAL, es).sessions
    ensures var x := Run(INITIAL, es).sessions[id];
      x.finished + x.dropped <= 1 && x.tq <= x.tqSends <= 1 && x.sync <= 1
  {
    RunKeepsInv(INITIAL, es);
    assert SessionInv(Run(INITIAL, es), id);
  }

  /** No send on a session's channel ever blocks: before each one the channel is empty. */
  lemma SendsNeverBlock(es: seq<Event>)
    ensures var s := Run(INITIAL, es);
      && (forall i | 0 <= i < |s.resChan| && s.resChan[i].id in s.smap ::
            s.resChan[i].id in s.sessions && s.sessions[s.resChan[i].id].tq == 0)
      && (forall i | 0 <= i < |s.handled| && s.handled[i].valid ::
            s.handled[i].id in s.sessions && s.sessions[s.handled[i].id].sync == 0)
      && (forall id | id in s.sessions && s.sessions[id].timer.Notify? :: s.sessions[id].sync == 0)
  {
    RunKeepsInv(INITIAL, es);
    var s := Run(INITIAL, es);
    forall i | 0 <= i < |s.resChan| && s.resChan[i].id in s.smap
      ensures s.resChan[i].id in s.sessions && s.sessions[s.resChan[i].id].tq == 0
    {
      RecvKeepsInv(s, i);
    }
    forall i | 0 <= i < |s.handled| && s.handled[i].valid
      ensures s.handled[i].id in s.sessions && s.sessions[s.handled[i].id].sync == 0
    {
      assert s.handled[i] in s.handled;
      DeliverKeepsInv(s, i);
    }
    forall id | id in s.sessions && s.sessions[id].timer.Notify? ensures s.sessions[id].sync == 0 {
      assert SessionInv(s, id);
    }
  }

  predicate Quiet(x: Session) {
    x.stopped && !x.fired
  }

  lemma StepStaysQuiet(s: State, e: Event, id: Id)
    requires id in s.sessions && Quiet(s.sessions[id])
    ensures id in Step(s, e).sessions && Quiet(Step(s, e).sessions[id])
  {
  }

  /** A timer that is stopped before it fires never fires, in any run. */
  lemma {:induction false} StoppedStaysQuiet(s: State, es: seq<Event>, id: Id)
    requires id in s.sessions && Quiet(s.sessions[id])
    ensures id in Run(s, es).sessions && Quiet(Run(s, es).sessions[id])
    decreases |es|
  {
    if es != [] {
      StepStaysQuiet(s, es[0], id);
      StoppedStaysQuiet(Step(s, es[0]), es[1..], id);
    }
  }

  /** A response that comes when its session has left the map has no effect but to be taken. */
  lemma LateResponseIgnored(s: State, r: Response)
    requires r.id in s.sessions && !s.sessions[r.id].timer.NotStarted? && r.id !in s.smap
    ensures Step(s, Arrive(r)) == s.(resChan := s.resChan + [r])
    ensures Step(Step(s, Arrive(r)), RecvLocked(|s.resChan|)) == s
  {
    assert Remove(s.resChan + [r], |s.resChan|) == s.resChan;
  }

  // ----- who is ever answered

  /** Some continuation completes the session. */
  ghost predicate CanFinish(s: State, id: Id) {
    exists es :: id in Run(s, es).sessions && Run(s, es).sessions[id].finished == 1
  }

  /** Some continuation lets the waiting caller return. */
  ghost predicate CanReturn(s: State, id: Id) {
    exists es :: id in Run(s, es).sessions && Run(s, es).sessions[id].caller.Returned?
  }

  lemma FinishVia(s: State, e: Event, id: Id)
    requires CanFinish(Step(s, e), id)
    ensures CanFinish(s, id)
  {
    var es :| id in Run(Step(s, e), es).sessions && Run(Step(s, e), es).sessions[id].finished == 1;
    assert ([e] + es)[1..] == es;
    assert Run(s, [e] + es) == Run(Step(s, e), es);
  }

  /** How many steps the timeout is away from completing the session. */
  function Distance(s: State, id: Id): nat
    requires id in s.sessions
  {
    var x := s.sessions[id];
    if x.finished == 1 then 0
    else if id !in s.smap then 1
    else if x.timer.Expired? then 2
    else if x.fired then 3 else 4
  }

  /** A step that brings the completion nearer. */
  lemma NearerStep(s: State, id: Id) returns (e: Event)
    requires Inv(s) && id in s.sessions && s.sessions[id].dropped == 0 && !s.sessions[id].timer.NotStarted?
    requires s.sessions[id].finished == 0
    ensures var t := Step(s, e);
      && id in t.sessions && t.sessions[id].dropped == 0 && !t.sessions[id].timer.NotStarted?
      && Distance(t, id) < Distance(s, id)
  {
    var x := s.sessions[id];
    assert SessionInv(s, id);
    if id in s.smap {
      e := if x.timer.Expired? then TimerLocked(id) else if x.fired then TimerExpires(id) else TimerFires(id);
    } else if x.timer.Notify? {
      e := TimerNotifies(id);
    } else {
      CountZero(s.handled, ValidFor(id));
      var i :| 0 <= i < |s.handled| && ValidFor(id)(s.handled[i]);
      e := Deliver(i);
    }
  }

  /** While the completion has not been given up, the timeout can still deliver it. */
  lemma {:induction false} NotDroppedCanFinish(s: State, id: Id)
    requires Inv(s) && id in s.sessions && s.sessions[id].dropped == 0 && !s.sessions[id].timer.NotStarted?
    ensures CanFinish(s, id)
    decreases Distance(s, id)
  {
    assert SessionInv(s, id);
    if s.sessions[id].finished == 1 {
      assert Run(s, []) == s;
    } else {
      var e := NearerStep(s, id);
      StepKeepsInv(s, e);
      NotDroppedCanFinish(Step(s, e), id);
      FinishVia(s, e, id);
    }
  }

  /** Some continuation lets the session's timer goroutine end. */
  ghost predicate CanExit(s: State, id: Id) {
    exists es :: id in Run(s, es).sessions && Run(s, es).sessions[id].timer.Exited?
  }

  function StepsToExit(x: Session): nat {
    match x.timer
    case Exited => 0
    case Notify => 1
    case Expired => 2
    case Waiting => if x.tq > 0 then 1 else if x.fired then 3 else 4
    case NotStarted => 5
  }

  function TowardsExit(x: Session, id: Id): Event {
    match x.timer
    case NotStarted => StartTimer(id)
    case Waiting => if x.tq > 0 then TimerGoes(id) else if x.fired then TimerExpires(id) else TimerFires(id)
    case Expired => TimerLocked(id)
    case _ => TimerNotifies(id)
  }

  lemma ExitStep(s: State, id: Id)
    requires id in s.sessions && SessionInv(s, id) && !s.sessions[id].timer.Exited?
    ensures var t := Step(s, TowardsExit(s.sessions[id], id));
      id in t.sessions && StepsToExit(t.sessions[id]) < StepsToExit(s.sessions[id])
  {
  }

  lemma ExitVia(s: State, e: Event, id: Id)
    requires CanExit(Step(s, e), id)
    ensures CanExit(s, id)
  {
    var es :| id in Run(Step(s, e), es).sessions && Run(Step(s, e), es).sessions[id].timer.Exited?;
    assert ([e] + es)[1..] == es;
    assert Run(s, [e] + es) == Run(Step(s, e), es);
  }

  /** No timer goroutine is stranded: after a response it has been told to go, and otherwise
      its timer has not been stopped. */
  lemma {:induction false} TimerCanExit(s: State, id: Id)
    requires Inv(s) && id in s.sessions
    ensures CanExit(s, id)
    decreases StepsToExit(s.sessions[id])
  {
    var x := s.sessions[id];
    assert SessionInv(s, id);
    if x.timer.Exited? {
      assert Run(s, []) == s;
    } else {
      var e := TowardsExit(x, id);
      ExitStep(s, id);
      StepKeepsInv(s, e);
      TimerCanExit(Step(s, e), id);
      ExitVia(s, e, id);
    }
  }

  lemma DroppedGrows(s: State, e: Event, id: Id)
    requires id in s.sessions
    ensures var t := Step(s, e);
      && id in t.sessions && t.sessions[id].dropped >= s.sessions[id].dropped
      && (s.sessions[id].caller.Blocked? ==> t.sessions[id].caller.Blocked? || s.sessions[id].sync > 0)
  {
  }

  lemma DroppedStays(s: State, e: Event, id: Id)
    requires Inv(s) && id in s.sessions && s.sessions[id].dropped == 1
    ensures var t := Step(s, e);
      && Inv(t) && id in t.sessions && t.sessions[id].dropped == 1 && t.sessions[id].finished == 0
      && (s.sessions[id].caller.Blocked? ==> t.sessions[id].caller.Blocked?)
  {
    assert SessionInv(s, id);
    DroppedGrows(s, e, id);
    StepKeepsInv(s, e);
    assert SessionInv(Step(s, e), id);
  }

  lemma {:induction false} DroppedForever(s: State, es: seq<Event>, id: Id)
    requires Inv(s) && id in s.sessions && s.sessions[id].dropped == 1
    ensures var t := Run(s, es);
      && id in t.sessions && t.sessions[id].finished == 0
      && (s.sessions[id].caller.Blocked? ==> t.sessions[id].caller.Blocked?)
    decreases |es|
  {
    assert SessionInv(s, id);
    if es != [] {
      DroppedStays(s, es[0], id);
      DroppedForever(Step(s, es[0]), es[1..], id);
    }
  }

  /** Once its timer is started, a session can still be completed exactly when its
      completion has not been given up. */
  lemma CanFinishIffNotDropped(s: State, id: Id)
    requires Inv(s) && id in s.sessions && !s.sessions[id].timer.NotStarted?
    ensures CanFinish(s, id) <==> s.sessions[id].dropped == 0
  {
    assert SessionInv(s, id);
    if s.sessions[id].dropped == 0 {
      NotDroppedCanFinish(s, id);
    } else if CanFinish(s, id) {
      var es :| id in Run(s, es).sessions && Run(s, es).sessions[id].finished == 1;
      DroppedForever(s, es, id);
    }
  }

  lemma ReturnVia(s: State, e: Event, id: Id)
    requires CanReturn(Step(s, e), id)
    ensures CanReturn(s, id)
  {
    var es :| id in Run(Step(s, e), es).sessions && Run(Step(s, e), es).sessions[id].caller.Returned?;
    assert ([e] + es)[1..] == es;
    assert Run(s, [e] + es) == Run(Step(s, e), es);
  }

  lemma BlockedStep(s: State, e: Event, id: Id)
    requires id in s.sessions && s.sessions[id].caller.Blocked?
    ensures var t := Step(s, e); id in t.sessions && (t.sessions[id].caller.Blocked? || t.sessions[id].caller.Returned?)
  {
  }

  lemma {:induction false} RunHasSession(s: State, es: seq<Event>, id: Id)
    requires id in s.sessions
    ensures id in Run(s, es).sessions
    decreases |es|
  {
    if es != [] {
      RunHasSession(Step(s, es[0]), es[1..], id);
    }
  }

  lemma {:induction false} StaysBlockedOrReturns(s: State, es: seq<Event>, id: Id)
    requires id in s.sessions && s.sessions[id].caller.Blocked?
    ensures var t := Run(s, es); id in t.sessions && (t.sessions[id].caller.Blocked? || CanReturn(s, id))
    decreases |es|
  {
    if es != [] {
      var t := Step(s, es[0]);
      BlockedStep(s, es[0], id);
      RunHasSession(t, es[1..], id);
      if t.sessions[id].caller.Blocked? {
        StaysBlockedOrReturns(t, es[1..], id);
      } else {
        assert Run(t, []) == t;
      }
      if CanReturn(t, id) {
        ReturnVia(s, es[0], id);
      }
    }
  }

  lemma ReturnNext(s: State, id: Id)
    requires id in s.sessions && SessionInv(s, id) && s.sessions[id].caller.Blocked? && s.sessions[id].finished == 1
    ensures CanReturn(s, id)
  {
    var t := Step(s, CallerReturns(id));
    assert Run(t, []) == t;
    ReturnVia(s, CallerReturns(id), id);
  }

  lemma ReturnAfter(s: State, es: seq<Event>, id: Id)
    requires CanReturn(Run(s, es), id)
    ensures CanReturn(s, id)
  {
    var fs :| id in Run(Run(s, es), fs).sessions && Run(Run(s, es), fs).sessions[id].caller.Returned?;
    RunAppend(s, es, fs);
  }

  lemma FinishedCanReturn(s: State, id: Id)
    requires Inv(s) && id in s.sessions && s.sessions[id].caller.Blocked? && CanFinish(s, id)
    ensures CanReturn(s, id)
  {
    var es :| id in Run(s, es).sessions && Run(s, es).sessions[id].finished == 1;
    StaysBlockedOrReturns(s, es, id);
    RunKeepsInv(s, es);
    if !CanReturn(s, id) {
      ReturnNext(Run(s, es), id);
      ReturnAfter(s, es, id);
    }
  }

  /** A synchronous caller waits forever exactly when its completion was given up, which
      happens when its response, having already cancelled the timeout, turns out invalid. */
  lemma CallerReturnsIffNotDropped(s: State, id: Id)
    requires Inv(s) && id in s.sessions && s.sessions[id].caller.Blocked?
    ensures CanReturn(s, id) <==> s.sessions[id].dropped == 0
  {
    assert SessionInv(s, id);
    if s.sessions[id].dropped == 0 {
      NotDroppedCanFinish(s, id);
      FinishedCanReturn(s, id);
    } else if CanReturn(s, id) {
      var es :| id in Run(s, es).sessions && Run(s, es).sessions[id].caller.Returned?;
      DroppedForever(s, es, id);
    }
  }

  lemma TraceStep(es: seq<Event>, s: State, e: Event) returns (fs: seq<Event>, t: State)
    requires Run(INITIAL, es) == s
    ensures t == Step(s, e) == Run(INITIAL, fs)
  {
    fs, t := es + [e], Step(s, e);
    RunOneMore(INITIAL, es, e);
  }

  /** Whether a waiting caller can still return is decided when its response is taken: exactly a
      valid one lets it. */
  lemma CallerReturnsIffValid(s: State, i: nat)
    requires Inv(s) && i < |s.resChan| && s.resChan[i].id in s.smap
    requires s.resChan[i].id in s.sessions && s.sessions[s.resChan[i].id].caller.Blocked?
    ensures CanReturn(Step(s, RecvLocked(i)), s.resChan[i].id) <==> s.resChan[i].valid
  {
    var id := s.resChan[i].id;
    assert SessionInv(s, id);
    RecvKeepsInv(s, i);
    CallerReturnsIffNotDropped(Step(s, RecvLocked(i)), id);
  }

  /** Such a run exists: an invalid response leaves the caller waiting. */
  lemma InvalidResponseStrandsCaller() returns (es: seq<Event>)
    ensures var s := Run(INITIAL, es);
      1 in s.sessions && s.sessions[1].caller.Blocked? && !CanReturn(s, 1)
  {
    var r := Response(1, false);
    es := [];
    var s := INITIAL;
    assert Run(INITIAL, es) == s;
    es, s := TraceStep(es, s, Register(1, Sync));
    es, s := TraceStep(es, s, StartTimer(1));
    es, s := TraceStep(es, s, SendOk(1));
    es, s := TraceStep(es, s, Arrive(r));
    assert s.resChan == [r];
    es, s := TraceStep(es, s, RecvLocked(0));
    RunKeepsInv(INITIAL, es);
    CallerReturnsIffNotDropped(s, 1);
  }
}
