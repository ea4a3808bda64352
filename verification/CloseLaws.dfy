/** When a connection closes, why, and what it accepts until then, over every run and stated on
    the events that happened. */
module CloseLaws {
  import opened Framing
  import opened Connection

  /** The step's call on the socket's Close, if it makes one, succeeds. */
  predicate CloseSucceeds(e: Event) {
    match e
    case CloseRequest(closeOk) => closeOk
    case Fault(_, closeOk) => closeOk
    case LoopTop(closeOk) => closeOk
    case Write(_, closeOk) => closeOk
    case _ => true
  }

  /** The step is one that closes the connection in state `s`: a second request, the send routine
      finding nothing left after the first, a fault, or a failed write. */
  predicate ClosingStep(s: State, e: Event) {
    match e
    case CloseRequest(_) => s.aboutToClose
    case LoopTop(_) => s.aboutToClose && s.place == Top && s.outPipe == []
    case Fault(_, _) => true
    case Write(ok, _) => s.place == Writing && !ok
    case _ => false
  }

  /** An open connection is closed by exactly these steps, if the socket's Close succeeds. */
  lemma ClosedIff(cfg: Config, s: State, e: Event)
    requires !s.isClosed
    ensures Step(cfg, s, e).isClosed <==> ClosingStep(s, e) && CloseSucceeds(e)
  {
  }

  lemma StepKeepsClosed(cfg: Config, s: State, e: Event)
    requires s.isClosed
    ensures var t := Step(cfg, s, e); t.isClosed && t.closeReason == s.closeReason
  {
  }

  lemma {:induction false} RunKeepsClosed(cfg: Config, s: State, es: seq<Event>)
    requires s.isClosed
    ensures var t := Run(cfg, s, es); t.isClosed && t.closeReason == s.closeReason
    decreases |es|
  {
    if es != [] {
      StepKeepsClosed(cfg, s, es[0]);
      RunKeepsClosed(cfg, Step(cfg, s, es[0]), es[1..]);
    }
  }

  /** This side closes only on request or when drained, the peer only by an end of stream, and
      everything else is an accident. */
  lemma ReasonGiven(cfg: Config, s: State, e: Event)
    requires !s.isClosed && Step(cfg, s, e).isClosed
    ensures var r := Step(cfg, s, e).closeReason;
      && (r == BySelf <==> e.CloseRequest? || e.LoopTop?)
      && (r == ByOther <==> e.Fault? && e.isEOF)
      && (r == ByAccident <==> (e.Fault? && !e.isEOF) || (e.Write? && !e.ok))
  {
  }

  /** The step of a run that closed the connection. */
  lemma {:induction false} ClosingPosition(cfg: Config, s: State, es: seq<Event>) returns (k: nat)
    requires !s.isClosed && Run(cfg, s, es).isClosed
    ensures k < |es| && !Run(cfg, s, es[..k]).isClosed
    ensures Step(cfg, Run(cfg, s, es[..k]), es[k]).isClosed
    ensures Run(cfg, s, es).closeReason == Step(cfg, Run(cfg, s, es[..k]), es[k]).closeReason
    decreases |es|
  {
    var t := Step(cfg, s, es[0]);
    if t.isClosed {
      k := 0;
      RunKeepsClosed(cfg, t, es[1..]);
    } else {
      k := ClosingPosition(cfg, t, es[1..]);
      k := k + 1;
      assert es[..k][1..] == es[1..][..k - 1];
    }
  }

  /** Every closed connection was closed by one step of its run, with a call on the socket that
      succeeded, and the kind of that step is the reason the connection reports. */
  lemma ReasonOfRun(cfg: Config, es: seq<Event>) returns (k: nat)
    requires Run(cfg, INITIAL, es).isClosed
    ensures k < |es| && CloseSucceeds(es[k]) && ClosingStep(Run(cfg, INITIAL, es[..k]), es[k])
    ensures var e, r := es[k], Run(cfg, INITIAL, es).closeReason;
      && (r == BySelf <==> e.CloseRequest? || e.LoopTop?)
      && (r == ByOther <==> e.Fault? && e.isEOF)
      && (r == ByAccident <==> (e.Fault? && !e.isEOF) || (e.Write? && !e.ok))
  {
    k := ClosingPosition(cfg, INITIAL, es);
    ClosedIff(cfg, Run(cfg, INITIAL, es[..k]), es[k]);
    ReasonGiven(cfg, Run(cfg, INITIAL, es[..k]), es[k]);
  }

  lemma StepAnnounces(cfg: Config, s: State, e: Event)
    requires !Step(cfg, s, e).isClosed
    ensures Step(cfg, s, e).aboutToClose <==> s.aboutToClose || e.CloseRequest?
    ensures !s.isClosed
  {
    if s.isClosed {
      StepKeepsClosed(cfg, s, e);
    }
  }

  /** An open connection is about to close exactly if it has been asked to. */
  lemma {:induction false} RequestsAnnounce(cfg: Config, s: State, es: seq<Event>)
    requires !Run(cfg, s, es).isClosed
    ensures Run(cfg, s, es).aboutToClose <==> s.aboutToClose || CloseRequests(es) > 0
    decreases |es|
  {
    if es != [] {
      var t := Step(cfg, s, es[0]);
      if t.isClosed {
        RunKeepsClosed(cfg, t, es[1..]);
      }
      StepAnnounces(cfg, s, es[0]);
      RequestsAnnounce(cfg, t, es[1..]);
    }
  }

  // ----- the send routine ends only with the connection closed

  lemma StepEndsClosed(cfg: Config, s: State, e: Event)
    requires CloseSucceeds(e) && (s.place == Done ==> s.isClosed)
    ensures Step(cfg, s, e).place == Done ==> Step(cfg, s, e).isClosed
  {
  }

  lemma {:induction false} RunEndsClosed(cfg: Config, s: State, es: seq<Event>)
    requires (forall e | e in es :: CloseSucceeds(e)) && (s.place == Done ==> s.isClosed)
    ensures Run(cfg, s, es).place == Done ==> Run(cfg, s, es).isClosed
    decreases |es|
  {
    if es != [] {
      StepEndsClosed(cfg, s, es[0]);
      RunEndsClosed(cfg, Step(cfg, s, es[0]), es[1..]);
    }
  }

  /** When the socket can be closed, the send routine never returns from an open connection, and
      the pipes have been closed once and the callback called. */
  lemma NoSilentEnd(cfg: Config, es: seq<Event>)
    requires forall e | e in es :: CloseSucceeds(e)
    ensures var s := Run(cfg, INITIAL, es);
      s.place == Done ==> s.isClosed && s.pipeCloses == 1 && s.callbacks == if cfg.hasCallback then 1 else 0
  {
    RunEndsClosed(cfg, INITIAL, es);
    RunKeepsInv(cfg, INITIAL, es);
  }

  /** Step `k` of the run is a failed write whose Close fails as well. */
  predicate LostAt(cfg: Config, es: seq<Event>, k: nat)
    requires k < |es|
  {
    Run(cfg, INITIAL, es[..k]).place == Writing && es[k].Write? && !es[k].ok && !es[k].closeOk
  }

  lemma StepLeavesOpen(cfg: Config, s: State, e: Event)
    requires !s.isClosed && !Step(cfg, s, e).isClosed
    ensures Step(cfg, s, e).place == Done <==>
      s.place == Done || (s.place == Writing && e.Write? && !e.ok && !e.closeOk)
  {
  }

  /** The send routine has returned from a connection that is still open exactly if a write has
      failed and then the Close after it. */
  lemma {:induction false} AbandonedIff(cfg: Config, es: seq<Event>)
    requires !Run(cfg, INITIAL, es).isClosed
    ensures Run(cfg, INITIAL, es).place == Done <==> exists k: nat :: k < |es| && LostAt(cfg, es, k)
    decreases |es|
  {
    if es != [] {
      var n := |es| - 1;
      var before, e := es[..n], es[n];
      assert es == before + [e];
      RunOneMore(cfg, INITIAL, before, e);
      if Run(cfg, INITIAL, before).isClosed {
        StepKeepsClosed(cfg, Run(cfg, INITIAL, before), e);
      }
      AbandonedIff(cfg, before);
      StepLeavesOpen(cfg, Run(cfg, INITIAL, before), e);
      assert forall k: nat | k < n :: es[..k] == before[..k] && es[k] == before[k];
      assert forall k: nat | k < n :: LostAt(cfg, es, k) <==> LostAt(cfg, before, k);
      assert es[..n] == before;
      assert LostAt(cfg, es, n) <==> Run(cfg, INITIAL, before).place == Writing && e.Write? && !e.ok && !e.closeOk;
    }
  }

  /** A run that leaves the connection open with nobody to send what it still accepts. */
  lemma AbandonedOpen() returns (es: seq<Event>)
    ensures var s := Run(Config(true, false, true), INITIAL, es);
      !s.isClosed && s.place == Done && s.accepted == [NetMsg(1, [7]), NetMsg(1, [7])] && s.written == []
  {
    var cfg, m := Config(true, false, true), NetMsg(1, [7]);
    es := [Send(m, true), LoopTop(true), Pop, Empty, Write(false, false), Send(m, true)];
    var s1 := Step(cfg, INITIAL, es[0]);
    var s2 := Step(cfg, s1, es[1]);
    var s3 := Step(cfg, s2, es[2]);
    var s4 := Step(cfg, s3, es[3]);
    var s5 := Step(cfg, s4, es[4]);
    var s6 := Step(cfg, s5, es[5]);
    assert |Frame(m)| == 9;
    assert s3.place == Reading && s3.outPipe == [] && |s3.sendbuf| > 0;
    assert s6.accepted == [m, m] && !s6.isClosed && s6.place == Done;
    assert Run(cfg, s6, []) == s6;
    assert Run(cfg, s5, es[5..]) == s6;
    assert es[4..][1..] == es[5..] && es[3..][1..] == es[4..] && es[2..][1..] == es[3..] && es[1..][1..] == es[2..];
    assert Run(cfg, s4, es[4..]) == s6;
    assert Run(cfg, s3, es[3..]) == s6;
    assert Run(cfg, s2, es[2..]) == s6;
    assert Run(cfg, s1, es[1..]) == s6;
  }

  /** After a fault or a failed write whose Close succeeds the connection is closed for good,
      whatever happens before and after, with the pipes closed once and one callback. */
  lemma FaultCloses(cfg: Config, before: seq<Event>, e: Event, after: seq<Event>)
    requires CloseSucceeds(e)
    requires e.Fault? || (e.Write? && !e.ok && Run(cfg, INITIAL, before).place == Writing)
    ensures var s := Run(cfg, INITIAL, before + [e] + after);
      s.isClosed && s.pipeCloses == 1 && s.callbacks == if cfg.hasCallback then 1 else 0
  {
    RunOneMore(cfg, INITIAL, before, e);
    RunAppend(cfg, INITIAL, before + [e], after);
    RunKeepsClosed(cfg, Run(cfg, INITIAL, before + [e]), after);
    RunKeepsInv(cfg, INITIAL, before + [e] + after);
  }

  // ----- what is accepted

  /** SendMsg accepts a message exactly if no close is pending, this side can send, the message
      holds 1 to 65527 bytes and the pipe takes it; otherwise it changes nothing. */
  lemma AcceptedIff(cfg: Config, s: State, m: NetMsg, pipeOk: bool)
    ensures var t := Step(cfg, s, Send(m, pipeOk));
      if !s.aboutToClose && !s.isClosed && (cfg.isTCP || !cfg.isServer) && 1 <= |m.data| <= 65527 && pipeOk
      then t == s.(accepted := s.accepted + [m], outPipe := s.outPipe + [Frame(m)])
      else t == s
  {
  }

  /** Nothing has entered the pipe: what it holds is the end of what it held. */
  predicate OnlyDrained(s: State, t: State) {
    && t.accepted == s.accepted
    && |t.outPipe| <= |s.outPipe| && t.outPipe == s.outPipe[|s.outPipe| - |t.outPipe|..]
  }

  /** Only SendMsg accepts messages and only the send routine takes packets out. */
  lemma PipeAfter(cfg: Config, s: State, e: Event)
    requires !e.Send?
    ensures Step(cfg, s, e).accepted == s.accepted
    ensures Step(cfg, s, e).outPipe == s.outPipe || (s.outPipe != [] && Step(cfg, s, e).outPipe == s.outPipe[1..])
  {
  }

  lemma StepStaysClosing(cfg: Config, s: State, e: Event)
    requires s.aboutToClose || s.isClosed
    ensures Step(cfg, s, e).aboutToClose || Step(cfg, s, e).isClosed
  {
  }

  lemma StepOnlyDrains(cfg: Config, s: State, e: Event)
    requires s.aboutToClose || s.isClosed || (!cfg.isTCP && cfg.isServer)
    ensures OnlyDrained(s, Step(cfg, s, e))
  {
    if e.Send? {
      AcceptedIff(cfg, s, e.m, e.pipeOk);
    } else {
      PipeAfter(cfg, s, e);
    }
  }

  lemma DrainedFurther(s: State, t: State, u: State)
    requires OnlyDrained(s, t) && OnlyDrained(t, u)
    ensures OnlyDrained(s, u)
  {
  }

  /** Once a close is pending, and on a UDP server always, no run accepts anything more or puts
      anything more into the pipe. */
  lemma {:induction false} ClosingAcceptsNothing(cfg: Config, s: State, es: seq<Event>)
    requires s.aboutToClose || s.isClosed || (!cfg.isTCP && cfg.isServer)
    ensures OnlyDrained(s, Run(cfg, s, es))
    decreases |es|
  {
    if es != [] {
      var t := Step(cfg, s, es[0]);
      StepOnlyDrains(cfg, s, es[0]);
      if s.aboutToClose || s.isClosed {
        StepStaysClosing(cfg, s, es[0]);
      }
      ClosingAcceptsNothing(cfg, t, es[1..]);
      DrainedFurther(s, t, Run(cfg, s, es));
    }
  }

  /** The messages of valid size that the pipe took before the first close request. */
  function Offered(es: seq<Event>): seq<NetMsg> {
    if es == [] || es[0].CloseRequest? then []
    else
      var more := Offered(es[1..]);
      if es[0].Send? && es[0].pipeOk && 1 <= |es[0].m.data| <= 65527 then [es[0].m] + more else more
  }

  lemma StaysOpen(cfg: Config, s: State, e: Event)
    requires !s.aboutToClose && !s.isClosed && Healthy(e) && !e.CloseRequest?
    ensures !Step(cfg, s, e).aboutToClose && !Step(cfg, s, e).isClosed
  {
  }

  lemma OneOffered(cfg: Config, s: State, e: Event)
    requires (cfg.isTCP || !cfg.isServer) && !s.aboutToClose && !s.isClosed
    ensures Step(cfg, s, e).accepted == s.accepted + Offered([e])
  {
    if e.Send? {
      AcceptedIff(cfg, s, e.m, e.pipeOk);
    } else {
      PipeAfter(cfg, s, e);
    }
  }

  lemma OfferedRest(es: seq<Event>)
    requires es != [] && !es[0].CloseRequest?
    ensures Offered(es) == Offered([es[0]]) + Offered(es[1..])
  {
  }

  lemma {:induction false} AcceptedFrom(cfg: Config, s: State, es: seq<Event>)
    requires (cfg.isTCP || !cfg.isServer) && !s.aboutToClose && !s.isClosed && forall e | e in es :: Healthy(e)
    ensures Run(cfg, s, es).accepted == s.accepted + Offered(es)
    decreases |es|
  {
    if es != [] {
      var t := Step(cfg, s, es[0]);
      assert Healthy(es[0]);
      OneOffered(cfg, s, es[0]);
      if es[0].CloseRequest? {
        ClosingAcceptsNothing(cfg, t, es[1..]);
      } else {
        OfferedRest(es);
        StaysOpen(cfg, s, es[0]);
        AcceptedFrom(cfg, t, es[1..]);
      }
    }
  }

  /** On a healthy socket the accepted messages are exactly the valid ones offered before the
      first close request, in order; a UDP server accepts none. */
  lemma AcceptedMessages(cfg: Config, es: seq<Event>)
    requires forall e | e in es :: Healthy(e)
    ensures Run(cfg, INITIAL, es).accepted == if cfg.isTCP || !cfg.isServer then Offered(es) else []
  {
    if cfg.isTCP || !cfg.isServer {
      AcceptedFrom(cfg, INITIAL, es);
    } else {
      ClosingAcceptsNothing(cfg, INITIAL, es);
    }
  }
}
