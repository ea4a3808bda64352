/** The sending side of a connection and its two-phase close, as a state machine over the
    steps of the goroutines that share it. */
module Connection {
  import opened Framing

  datatype CloseReason = None | BySelf | ByOther | ByAccident

  datatype Config = Config(isTCP: bool, isServer: bool, hasCallback: bool)

  /** Where the send routine is: at the head of its loop, filling a batch, about to write
      the batch, or returned. */
  datatype Place = Top | Reading | Writing | Done

  datatype State = State(
    isClosed: bool,
    aboutToClose: bool,
    closeReason: CloseReason,
    outPipe: seq<seq<Byte>>,
    place: Place,
    waiting: bool,            // the next read of the pipe may time out
    sendbuf: seq<Byte>,
    written: seq<Byte>,       // bytes the socket has taken
    accepted: seq<NetMsg>,    // messages SendMsg reported as sent
    pipeCloses: nat,
    callbacks: nat)

  const INITIAL := State(false, false, None, [], Top, false, [], [], [], 0, 0)

  /** One atomic step. `closeOk` and `ok` are the outcomes of calls on the socket, `pipeOk`
      that of the write into the pipe. */
  datatype Event =
    | Send(m: NetMsg, pipeOk: bool)
    | CloseRequest(closeOk: bool)
    | Fault(isEOF: bool, closeOk: bool)
    | LoopTop(closeOk: bool)
    | Pop
    | Empty
    | Timeout
    | PipeClosed
    | Write(ok: bool, closeOk: bool)

  function CloseNow(cfg: Config, s: State, normalClose: bool, isEOF: bool, closeOk: bool): State {
    if s.isClosed then s
    else if normalClose && !s.aboutToClose then s.(aboutToClose := true)
    else if !closeOk then s
    else s.(
      isClosed := true,
      closeReason := if normalClose then BySelf else if isEOF then ByOther else ByAccident,
      pipeCloses := s.pipeCloses + 1,
      callbacks := s.callbacks + if cfg.hasCallback then 1 else 0)
  }

  predicate Accepts(cfg: Config, s: State, m: NetMsg) {
    !s.aboutToClose && !s.isClosed && (cfg.isTCP || !cfg.isServer) && Sendable(m)
  }

  function Step(cfg: Config, s: State, e: Event): State {
    match e
    case Send(m, pipeOk) =>
      if Accepts(cfg, s, m) && pipeOk then s.(outPipe := s.outPipe + [Frame(m)], accepted := s.accepted + [m]) else s
    case CloseRequest(closeOk) => CloseNow(cfg, s, true, false, closeOk)
    case Fault(isEOF, closeOk) => CloseNow(cfg, s, false, isEOF, closeOk)
    case LoopTop(closeOk) =>
      if s.place != Top then s
      else if s.isClosed then s.(place := Done)
      else
        var t := if s.aboutToClose && s.outPipe == [] then CloseNow(cfg, s, true, false, closeOk) else s;
        t.(place := Reading, waiting := false, sendbuf := [])
    case Pop =>
      if s.place != Reading || s.outPipe == [] then s
      else
        var buf := s.sendbuf + s.outPipe[0];
        s.(outPipe := s.outPipe[1..], sendbuf := buf, waiting := false,
           place := if |buf| < SOCKET_BUF_SIZE / 2 then Reading else Writing)
    case Empty =>
      if s.place != Reading || s.outPipe != [] || s.isClosed || s.waiting then s
      else if |s.sendbuf| > 0 then s.(place := Writing)
      else s.(waiting := true)
    case Timeout =>
      if s.place == Reading && s.waiting then s.(place := Top) else s
    case PipeClosed =>
      if s.place == Reading && s.outPipe == [] && s.isClosed then s.(place := Done) else s
    case Write(ok, closeOk) =>
      if s.place != Writing then s
      else if ok && !s.isClosed then s.(written := s.written + s.sendbuf, sendbuf := [], place := Top)
      else CloseNow(cfg, s, false, false, closeOk).(place := Done)
  }

  function Run(cfg: Config, s: State, es: seq<Event>): State
    decreases |es|
  {
    if es == [] then s else Run(cfg, Step(cfg, s, es[0]), es[1..])
  }

  lemma {:induction false} RunAppend(cfg: Config, s: State, es: seq<Event>, fs: seq<Event>)
    ensures Run(cfg, s, es + fs) == Run(cfg, Run(cfg, s, es), fs)
    decreases |es|
  {
    if es == [] {
      assert es + fs == fs;
    } else {
      assert (es + fs)[1..] == es[1..] + fs;
      RunAppend(cfg, Step(cfg, s, es[0]), es[1..], fs);
    }
  }

  lemma RunOneMore(cfg: Config, s: State, es: seq<Event>, e: Event)
    ensures Run(cfg, s, es + [e]) == Step(cfg, Run(cfg, s, es), e)
  {
    RunAppend(cfg, s, es, [e]);
    assert Run(cfg, Step(cfg, Run(cfg, s, es), e), []) == Step(cfg, Run(cfg, s, es), e);
  }

  function Concat(packets: seq<seq<Byte>>): seq<Byte> {
    if packets == [] then [] else packets[0] + Concat(packets[1..])
  }

  lemma {:induction false} ConcatAppend(a: seq<seq<Byte>>, b: seq<seq<Byte>>)
    ensures Concat(a + b) == Concat(a) + Concat(b)
  {
    if a == [] {
      assert a + b == b;
    } else {
      assert (a + b)[1..] == a[1..] + b;
      ConcatAppend(a[1..], b);
    }
  }

  /** Accepted bytes the socket has not taken yet. */
  function Pending(s: State): seq<Byte> {
    s.sendbuf + Concat(s.outPipe)
  }

  /** What every step keeps. */
  ghost predicate Inv(cfg: Config, s: State) {
    && AllSendable(s.accepted)
    && s.written + Pending(s) == Frames(s.accepted)
    && (forall p | p in s.outPipe :: HEAD_SIZE < |p| < SOCKET_BUF_SIZE)
    && (s.place == Reading ==> |s.sendbuf| < SOCKET_BUF_SIZE / 2)
    && 2 * |s.sendbuf| < 3 * SOCKET_BUF_SIZE
    && (s.place == Top || (s.waiting && s.place == Reading) ==> s.sendbuf == [])
    && (s.closeReason == None <==> !s.isClosed)
    && s.pipeCloses == (if s.isClosed then 1 else 0)
    && s.callbacks == (if s.isClosed && cfg.hasCallback then 1 else 0)
  }

  lemma SingleFrame(m: NetMsg)
    requires Sendable(m)
    ensures Frames([m]) == Frame(m) == Concat([Frame(m)])
  {
    assert Frames([m]) == Frame(m) + Frames([]);
    assert Concat([Frame(m)]) == Frame(m) + Concat([]);
  }

  lemma Reassociate(a: seq<Byte>, b: seq<Byte>, c: seq<Byte>, d: seq<Byte>)
    ensures a + (b + (c + d)) == a + (b + c) + d
  {
  }

  lemma AcceptedFrames(s: State, m: NetMsg)
    requires AllSendable(s.accepted) && Sendable(m) && s.written + Pending(s) == Frames(s.accepted)
    ensures s.written + (s.sendbuf + Concat(s.outPipe + [Frame(m)])) == Frames(s.accepted + [m])
  {
    FramesAppend(s.accepted, [m]);
    SingleFrame(m);
    ConcatAppend(s.outPipe, [Frame(m)]);
    Reassociate(s.written, s.sendbuf, Concat(s.outPipe), Frame(m));
  }

  lemma SendKeepsInv(cfg: Config, s: State, m: NetMsg)
    requires Inv(cfg, s) && Accepts(cfg, s, m)
    ensures Inv(cfg, Step(cfg, s, Send(m, true)))
  {
    AcceptedFrames(s, m);
    assert |Head(m)| == HEAD_SIZE;
  }

  lemma PopKeepsInv(cfg: Config, s: State)
    requires Inv(cfg, s) && s.place == Reading && s.outPipe != []
    ensures Inv(cfg, Step(cfg, s, Pop))
  {
    var rest := Concat(s.outPipe[1..]);
    assert s.sendbuf + s.outPipe[0] + rest == s.sendbuf + (s.outPipe[0] + rest);
    assert s.outPipe[0] in s.outPipe;
  }

  lemma WriteKeepsInv(cfg: Config, s: State, closeOk: bool)
    requires Inv(cfg, s) && s.place == Writing && !s.isClosed
    ensures Inv(cfg, Step(cfg, s, Write(true, closeOk)))
  {
    var p := Concat(s.outPipe);
    assert s.written + s.sendbuf + ([] + p) == s.written + (s.sendbuf + p);
  }

  lemma CloseKeepsInv(cfg: Config, s: State, normalClose: bool, isEOF: bool, closeOk: bool)
    requires Inv(cfg, s)
    ensures Inv(cfg, CloseNow(cfg, s, normalClose, isEOF, closeOk))
  {
  }

  lemma LoopTopKeepsInv(cfg: Config, s: State, closeOk: bool)
    requires Inv(cfg, s)
    ensures Inv(cfg, Step(cfg, s, LoopTop(closeOk)))
  {
    CloseKeepsInv(cfg, s, true, false, closeOk);
  }

  lemma StepKeepsInv(cfg: Config, s: State, e: Event)
    requires Inv(cfg, s)
    ensures Inv(cfg, Step(cfg, s, e))
  {
    match e
    case Send(m, pipeOk) => if Accepts(cfg, s, m) && pipeOk { SendKeepsInv(cfg, s, m); }
    case CloseRequest(closeOk) => CloseKeepsInv(cfg, s, true, false, closeOk);
    case Fault(isEOF, closeOk) => CloseKeepsInv(cfg, s, false, isEOF, closeOk);
    case LoopTop(closeOk) => LoopTopKeepsInv(cfg, s, closeOk);
    case Pop => if s.place == Reading && s.outPipe != [] { PopKeepsInv(cfg, s); }
    case Write(ok, closeOk) =>
      if ok && !s.isClosed {
        if s.place == Writing { WriteKeepsInv(cfg, s, closeOk); }
      } else {
        CloseKeepsInv(cfg, s, false, false, closeOk);
      }
    case _ =>
  }

  lemma {:induction false} RunKeepsInv(cfg: Config, s: State, es: seq<Event>)
    requires Inv(cfg, s)
    ensures Inv(cfg, Run(cfg, s, es))
    decreases |es|
  {
    if es != [] {
      StepKeepsInv(cfg, s, es[0]);
      RunKeepsInv(cfg, Step(cfg, s, es[0]), es[1..]);
    }
  }

  /** In every run the socket has taken a beginning of the accepted frames, in order; a
      batch fits in one and a half buffers; and the pipes are closed and the callback fires
      at most once. */
  lemma EveryRun(cfg: Config, es: seq<Event>)
    ensures var s := Run(cfg, INITIAL, es);
      && AllSendable(s.accepted) && s.written <= Frames(s.accepted)
      && 2 * |s.sendbuf| < 3 * SOCKET_BUF_SIZE
      && s.pipeCloses <= 1 && s.callbacks <= 1
  {
    RunKeepsInv(cfg, INITIAL, es);
  }

  // ----- closing

  /** The socket works: it reports no error and no end of stream. */
  predicate Healthy(e: Event) {
    !e.Fault? && (e.Write? ==> e.ok)
  }

  function CloseRequests(es: seq<Event>): nat {
    if es == [] then 0 else CloseRequests(es[1..]) + if es[0].CloseRequest? then 1 else 0
  }

  /** Closed only by the send routine itself, with nothing left to send. */
  ghost predicate Drained(s: State) {
    s.isClosed ==> s.aboutToClose && s.closeReason == BySelf && s.sendbuf == [] && s.outPipe == []
  }

  lemma StepKeepsDrained(cfg: Config, s: State, e: Event)
    requires Inv(cfg, s) && Drained(s) && Healthy(e)
    requires e.CloseRequest? ==> !s.aboutToClose
    ensures Drained(Step(cfg, s, e))
    ensures Step(cfg, s, e).aboutToClose ==> s.aboutToClose || e.CloseRequest?
  {
  }

  lemma {:induction false} RunKeepsDrained(cfg: Config, s: State, es: seq<Event>)
    requires Inv(cfg, s) && Drained(s) && forall e | e in es :: Healthy(e)
    requires CloseRequests(es) <= if s.aboutToClose then 0 else 1
    ensures Drained(Run(cfg, s, es))
    decreases |es|
  {
    if es != [] {
      StepKeepsInv(cfg, s, es[0]);
      StepKeepsDrained(cfg, s, es[0]);
      RunKeepsDrained(cfg, Step(cfg, s, es[0]), es[1..]);
    }
  }

  /** A graceful close drains: with one close request and a healthy socket, in whatever
      order the steps happen, a closed connection has written every accepted message, and
      its reason says that this side closed it. */
  lemma GracefulClose(cfg: Config, es: seq<Event>)
    requires CloseRequests(es) <= 1 && forall e | e in es :: Healthy(e)
    ensures var s := Run(cfg, INITIAL, es);
      s.isClosed ==> s.closeReason == BySelf && AllSendable(s.accepted) && s.written == Frames(s.accepted)
  {
    RunKeepsInv(cfg, INITIAL, es);
    RunKeepsDrained(cfg, INITIAL, es);
  }

  // ----- a graceful close comes about

  /** Some continuation on a healthy socket, without another close request, closes the
      connection. */
  ghost predicate CanClose(cfg: Config, s: State) {
    exists es :: (forall e | e in es :: Healthy(e)) && CloseRequests(es) == 0 && Run(cfg, s, es).isClosed
  }

  /** Steps to the head of the loop, with packets left or without. */
  function Rank(s: State): nat {
    match s.place
    case Top => if s.outPipe == [] then 1 else 2
    case Writing => 3
    case Reading => if s.outPipe != [] then 1 else if s.waiting then 2 else 4
    case Done => 0
  }

  /** How far the send routine is from finding the pipe empty at the head of its loop. */
  function ToClose(s: State): nat {
    if s.isClosed then 0 else 6 * |s.outPipe| + Rank(s)
  }

  /** The send routine's next step when the socket works and nobody sends. */
  function NextStep(s: State): Event {
    match s.place
    case Top => LoopTop(true)
    case Writing => Write(true, true)
    case _ => if s.outPipe != [] then Pop else if s.waiting then Timeout else Empty
  }

  lemma NextStepNearer(cfg: Config, s: State)
    requires Inv(cfg, s) && s.aboutToClose && !s.isClosed && s.place != Done
    ensures var t := Step(cfg, s, NextStep(s));
      ToClose(t) < ToClose(s) && (t.isClosed || (t.aboutToClose && t.place != Done))
  {
  }

  lemma CloseVia(cfg: Config, s: State, e: Event)
    requires Healthy(e) && !e.CloseRequest? && CanClose(cfg, Step(cfg, s, e))
    ensures CanClose(cfg, s)
  {
    var t := Step(cfg, s, e);
    var es :| (forall e | e in es :: Healthy(e)) && CloseRequests(es) == 0 && Run(cfg, t, es).isClosed;
    assert ([e] + es)[1..] == es;
    assert Run(cfg, s, [e] + es) == Run(cfg, t, es);
    assert CloseRequests([e] + es) == 0;
  }

  lemma {:induction false} AboutToCloseCanClose(cfg: Config, s: State)
    requires Inv(cfg, s) && (s.isClosed || (s.aboutToClose && s.place != Done))
    ensures CanClose(cfg, s)
    decreases ToClose(s)
  {
    if s.isClosed {
      assert Run(cfg, s, []).isClosed && CloseRequests([]) == 0;
    } else {
      var e := NextStep(s);
      var t := Step(cfg, s, e);
      NextStepNearer(cfg, s);
      StepKeepsInv(cfg, s, e);
      AboutToCloseCanClose(cfg, t);
      CloseVia(cfg, s, e);
    }
  }

  /** The send routine returns only after the close, and a close request is not forgotten. */
  ghost predicate OnTheWay(s: State, requested: bool) {
    s.isClosed || (s.place != Done && (requested ==> s.aboutToClose))
  }

  lemma {:induction false} RunKeepsOnTheWay(cfg: Config, s: State, es: seq<Event>, requested: bool)
    requires OnTheWay(s, requested) && forall e | e in es :: Healthy(e)
    ensures OnTheWay(Run(cfg, s, es), requested || CloseRequests(es) > 0)
    decreases |es|
  {
    if es != [] {
      assert Healthy(es[0]);
      RunKeepsOnTheWay(cfg, Step(cfg, s, es[0]), es[1..], requested || es[0].CloseRequest?);
    }
  }

  lemma {:induction false} CloseRequestsSum(es: seq<Event>, fs: seq<Event>)
    ensures CloseRequests(es + fs) == CloseRequests(es) + CloseRequests(fs)
  {
    if es == [] {
      assert es + fs == fs;
    } else {
      assert (es + fs)[1..] == es[1..] + fs;
      CloseRequestsSum(es[1..], fs);
    }
  }

  /** After one close request on a healthy socket, whatever happened so far, the connection can
      still be closed with every accepted message written in order. */
  lemma CloseComesAbout(cfg: Config, es: seq<Event>) returns (fs: seq<Event>)
    requires CloseRequests(es) == 1 && forall e | e in es :: Healthy(e)
    ensures (forall e | e in fs :: Healthy(e)) && CloseRequests(fs) == 0
    ensures var s := Run(cfg, INITIAL, es + fs);
      s.isClosed && s.closeReason == BySelf && AllSendable(s.accepted) && s.written == Frames(s.accepted)
  {
    var s := Run(cfg, INITIAL, es);
    RunKeepsInv(cfg, INITIAL, es);
    RunKeepsOnTheWay(cfg, INITIAL, es, false);
    AboutToCloseCanClose(cfg, s);
    fs :| (forall e | e in fs :: Healthy(e)) && CloseRequests(fs) == 0 && Run(cfg, s, fs).isClosed;
    RunAppend(cfg, INITIAL, es, fs);
    CloseRequestsSum(es, fs);
    GracefulClose(cfg, es + fs);
  }

  // ----- a second request

  /** Nothing is written after the close. */
  lemma {:induction false} ClosedWritesNothing(cfg: Config, s: State, es: seq<Event>)
    requires s.isClosed
    ensures var t := Run(cfg, s, es); t.isClosed && t.written == s.written && t.accepted == s.accepted
    decreases |es|
  {
    if es != [] {
      ClosedWritesNothing(cfg, Step(cfg, s, es[0]), es[1..]);
    }
  }

  /** A second close request closes at once. What had been accepted is written in some
      continuation, and then in all, exactly when nothing was pending at that moment. */
  lemma SecondCloseRequest(cfg: Config, s: State, es: seq<Event>)
    requires Inv(cfg, s) && s.aboutToClose && !s.isClosed
    ensures var t := Run(cfg, Step(cfg, s, CloseRequest(true)), es);
      t.isClosed && AllSendable(t.accepted) && (t.written == Frames(t.accepted) <==> Pending(s) == [])
  {
    ClosedWritesNothing(cfg, Step(cfg, s, CloseRequest(true)), es);
    assert |Frames(s.accepted)| == |s.written| + |Pending(s)|;
  }

  /** So two close requests in a row can lose an accepted message. */
  lemma TwoCloseRequestsLose()
    ensures var s := Run(Config(true, false, true), INITIAL,
        [Send(NetMsg(1, [7]), true), CloseRequest(true), CloseRequest(true)]);
      s.isClosed && s.accepted == [NetMsg(1, [7])] && s.written == []
  {
    var cfg := Config(true, false, true);
    var m := NetMsg(1, [7]);
    var s1 := Step(cfg, INITIAL, Send(m, true));
    var s2 := Step(cfg, s1, CloseRequest(true));
    var s3 := Step(cfg, s2, CloseRequest(true));
    assert Run(cfg, s3, []) == s3;
    assert Run(cfg, s2, [CloseRequest(true)]) == s3;
    assert Run(cfg, s1, [CloseRequest(true), CloseRequest(true)]) == s3;
  }

  // ----- end to end

  /** Messages sent are messages received: when everything written by a drained sender has
      arrived, however it was cut, the receiver has delivered exactly the accepted messages. */
  lemma EndToEnd(cfg: Config, es: seq<Event>, k: nat, rest: seq<Byte>)
    requires CloseRequests(es) <= 1 && forall e | e in es :: Healthy(e)
    requires var s := Run(cfg, INITIAL, es);
      && s.isClosed && AllSendable(s.accepted) && k <= |s.accepted|
      && s.written == Frames(s.accepted[..k]) + rest
      && rest <= Frames(s.accepted[k..]) && NoFrame(rest)
    ensures k == |Run(cfg, INITIAL, es).accepted| && rest == []
  {
    var s := Run(cfg, INITIAL, es);
    GracefulClose(cfg, es);
    var n := |s.accepted|;
    assert s.accepted[..n] == s.accepted && s.accepted[n..] == [];
    assert Frames(s.accepted[..n]) + [] == Frames(s.accepted[..k]) + rest;
    DeliveryIsUnique(s.accepted, n, k, [], rest);
  }
}
