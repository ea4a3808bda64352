/** The connection object of the sending side. Its methods are the steps of the state
    machine in module `Connection`; the send routine is a sequence of them. */
module SendRoutine {
  import opened Framing
  import C = Connection

  class Conn {
    const cfg: C.Config
    var isClosed: bool
    var aboutToClose: bool
    var closeReason: C.CloseReason
    var outPipe: seq<seq<Byte>>
    var sendbuf: seq<Byte>
    ghost var place: C.Place
    ghost var waiting: bool
    ghost var written: seq<Byte>
    ghost var accepted: seq<NetMsg>
    ghost var pipeCloses: nat
    ghost var callbacks: nat

    ghost function View(): C.State
      reads this
    {
      C.State(isClosed, aboutToClose, closeReason, outPipe, place, waiting, sendbuf, written, accepted,
        pipeCloses, callbacks)
    }

    constructor (cfg: C.Config)
      ensures View() == C.INITIAL && this.cfg == cfg
    {
      this.cfg := cfg;
      isClosed, aboutToClose, closeReason, outPipe, sendbuf := false, false, C.None, [], [];
      place, waiting, written, accepted, pipeCloses, callbacks := C.Top, false, [], [], 0, 0;
    }

    /** A normal close is first only announced, so that the pipe can be emptied. Any
        other closes at once if the socket can be closed, for the reason given. */
    method CloseNow(normalClose: bool, isEOF: bool, closeOk: bool)
      modifies this
      ensures View() == C.CloseNow(cfg, old(View()), normalClose, isEOF, closeOk)
      ensures isClosed <==> old(isClosed) || (closeOk && (!normalClose || old(aboutToClose)))
      ensures aboutToClose <==> old(aboutToClose) || (normalClose && !old(isClosed))
      ensures isClosed && !old(isClosed) ==>
        && (closeReason == C.BySelf <==> normalClose)
        && (closeReason == C.ByOther <==> !normalClose && isEOF)
        && (closeReason == C.ByAccident <==> !normalClose && !isEOF)
    {
      if isClosed {
        return;
      }
      if normalClose && !aboutToClose {
        aboutToClose := true;
        return;
      }
      if closeOk {
        isClosed := true;
        if normalClose {
          closeReason := C.BySelf;
        } else if isEOF {
          closeReason := C.ByOther;
        } else {
          closeReason := C.ByAccident;
        }
        pipeCloses := pipeCloses + 1;
        if cfg.hasCallback {
          callbacks := callbacks + 1;
        }
      }
    }

    method Close(closeOk: bool)
      modifies this
      ensures View() == C.Step(cfg, old(View()), C.CloseRequest(closeOk))
    {
      CloseNow(true, false, closeOk);
    }

    /** Puts one frame into the pipe, or reports an error and changes nothing. */
    method SendMsg(m: NetMsg, pipeOk: bool) returns (ok: bool)
      modifies this
      ensures View() == C.Step(cfg, old(View()), C.Send(m, pipeOk))
      ensures ok <==>
        && !old(aboutToClose) && !old(isClosed) && (cfg.isTCP || !cfg.isServer)
        && 1 <= |m.data| <= 65527 && pipeOk
      ensures ok ==> outPipe == old(outPipe) + [Frame(m)] && accepted == old(accepted) + [m]
      ensures !ok ==> View() == old(View())
    {
      if aboutToClose || isClosed {
        return false;
      }
      if !cfg.isTCP && cfg.isServer {
        return false;
      }
      if |m.data| == 0 || |m.data| >= SOCKET_BUF_SIZE - HEAD_SIZE {
        return false;
      }
      var packet := PutUint32(|m.data| + HEAD_SIZE) + PutUint16(MAGIC_NUMBER) + PutUint16(m.msgType) + m.data;
      if !pipeOk {
        return false;
      }
      outPipe := outPipe + [packet];
      accepted := accepted + [m];
      return true;
    }

    /** A read of an empty pipe: closed, empty, or timed out after waiting. */
    ghost method Outcome(e: C.Event, next: C.Place, wait: bool)
      requires place == C.Reading && outPipe == [] && |sendbuf| < SOCKET_BUF_SIZE / 2 && (waiting ==> sendbuf == [])
      requires e == (if isClosed then C.PipeClosed else if waiting then C.Timeout else C.Empty)
      requires next == (
        if isClosed then C.Done else if waiting then C.Top else if sendbuf != [] then C.Writing else C.Reading)
      requires wait == (if isClosed then waiting else sendbuf == [])
      modifies `place, `waiting
      ensures View() == C.Step(cfg, old(View()), e) && place == next && waiting == wait
    {
      place, waiting := next, wait;
    }

    method PopOne()
      requires place == C.Reading && outPipe != []
      modifies this
      ensures View() == C.Step(cfg, old(View()), C.Pop)
      ensures sendbuf + C.Concat(outPipe) == old(sendbuf + C.Concat(outPipe))
      ensures outPipe == old(outPipe)[1..] && sendbuf == old(sendbuf + outPipe[0]) && !waiting
      ensures place == if |sendbuf| < SOCKET_BUF_SIZE / 2 then C.Reading else C.Writing
      ensures isClosed == old(isClosed) && written == old(written)
    {
      var packet := outPipe[0];
      assert sendbuf + packet + C.Concat(outPipe[1..]) == sendbuf + (packet + C.Concat(outPipe[1..]));
      outPipe := outPipe[1..];
      sendbuf := sendbuf + packet;
      waiting := false;
      place := if |sendbuf| < SOCKET_BUF_SIZE / 2 then C.Reading else C.Writing;
    }

    /** Fills the batch with whole packets from the front of the pipe, until it is half a
        buffer long or the pipe is empty; it stays empty only if the pipe was. A batch never
        outgrows one and a half buffers. */
    method ReadPacketsFromPipe() returns (closed: bool, ghost es: seq<C.Event>)
      requires place == C.Reading && sendbuf == [] && !waiting
      requires forall p | p in outPipe :: HEAD_SIZE < |p| < SOCKET_BUF_SIZE
      modifies this
      ensures View() == C.Run(cfg, old(View()), es)
      ensures sendbuf + C.Concat(outPipe) == C.Concat(old(outPipe)) && 2 * |sendbuf| < 3 * SOCKET_BUF_SIZE
      ensures |sendbuf| >= SOCKET_BUF_SIZE / 2 || outPipe == []
      ensures sendbuf == [] ==> old(outPipe) == []
      ensures closed ==> place == C.Done && isClosed
      ensures isClosed ==> closed || sendbuf != []
      ensures !closed ==> place == (if sendbuf == [] then C.Top else C.Writing)
      ensures isClosed == old(isClosed) && written == old(written)
    {
      es := [];
      var sleeping := false;
      while |sendbuf| < SOCKET_BUF_SIZE / 2
        invariant View() == C.Run(cfg, old(View()), es)
        invariant waiting == sleeping && (sleeping ==> sendbuf == [] && outPipe == [] && !isClosed)
        invariant sendbuf == [] ==> outPipe == old(outPipe)
        invariant place == if |sendbuf| < SOCKET_BUF_SIZE / 2 then C.Reading else C.Writing
        invariant forall p | p in outPipe :: HEAD_SIZE < |p| < SOCKET_BUF_SIZE
        invariant sendbuf + C.Concat(outPipe) == C.Concat(old(outPipe)) && 2 * |sendbuf| < 3 * SOCKET_BUF_SIZE
        invariant isClosed == old(isClosed) && written == old(written)
        decreases |outPipe|, if sleeping then 0 else 1
      {
        ghost var e :=
          if outPipe != [] then C.Pop else if isClosed then C.PipeClosed else if !sleeping then C.Empty else C.Timeout;
        C.RunOneMore(cfg, old(View()), es, e);
        es := es + [e];
        if outPipe != [] {
          PopOne();
          sleeping := false;
        } else if isClosed {
          Outcome(e, C.Done, sleeping);
          return true, es;
        } else if sleeping {
          Outcome(e, C.Top, true);
          return false, es;
        } else if |sendbuf| > 0 {
          Outcome(e, C.Writing, false);
          break;
        } else {
          Outcome(e, C.Reading, true);
          sleeping := true;
        }
      }
      closed := false;
    }

    /** The head of the send routine's loop. */
    method BeginRound(closeOk: bool) returns (stop: bool)
      requires place == C.Top
      modifies this
      ensures View() == C.Step(cfg, old(View()), C.LoopTop(closeOk))
      ensures stop <==> old(isClosed)
      ensures stop ==> place == C.Done && isClosed
      ensures !stop ==> place == C.Reading && sendbuf == [] && !waiting
      ensures outPipe == old(outPipe) && written == old(written)
      ensures isClosed ==> old(isClosed) || outPipe == []
    {
      if isClosed {
        place := C.Done;
        return true;
      }
      if aboutToClose && |outPipe| == 0 {
        CloseNow(true, false, closeOk);
      }
      place, waiting, sendbuf := C.Reading, false, [];
      return false;
    }

    /** Writes the batch to the socket; an error closes the connection. */
    method WriteBatch(ok: bool, closeOk: bool) returns (stop: bool)
      requires place == C.Writing
      modifies this
      ensures View() == C.Step(cfg, old(View()), C.Write(ok, closeOk))
      ensures place == if stop then C.Done else C.Top
      ensures ok && !old(isClosed) ==> written == old(written + sendbuf) && outPipe == old(outPipe) && !stop
      ensures stop && (ok || closeOk) ==> isClosed
      ensures isClosed ==> stop
    {
      if ok && !isClosed {
        written, sendbuf, place := written + sendbuf, [], C.Top;
        return false;
      }
      if !isClosed {
        CloseNow(false, false, closeOk);
      }
      place := C.Done;
      return true;
    }

    /** The front of the pipe has been written: all of it, or at least half a buffer. */
    twostate predicate FrontWritten()
      reads this
    {
      && written + C.Concat(outPipe) == old(written + C.Concat(outPipe))
      && |written| > |old(written)|
      && (|written| >= |old(written)| + SOCKET_BUF_SIZE / 2 || outPipe == [])
    }

    /** The rest of a round: take a batch and write it. */
    method FillAndWrite(writeOk: bool, closeOk: bool) returns (stop: bool, ghost es: seq<C.Event>)
      requires place == C.Reading && sendbuf == [] && !waiting
      requires forall p | p in outPipe :: HEAD_SIZE < |p| < SOCKET_BUF_SIZE
      modifies this
      ensures View() == C.Run(cfg, old(View()), es)
      ensures place == if stop then C.Done else C.Top
      ensures stop && (writeOk || closeOk) ==> isClosed
      ensures isClosed ==> stop
      ensures old(outPipe) != [] && !old(isClosed) && writeOk ==> !stop && FrontWritten()
    {
      ghost var start := View();
      var closed;
      closed, es := ReadPacketsFromPipe();
      if closed || |sendbuf| == 0 {
        return closed, es;
      }
      assert written + sendbuf + C.Concat(outPipe) == written + (sendbuf + C.Concat(outPipe));
      C.RunOneMore(cfg, start, es, C.Write(writeOk, closeOk));
      es := es + [C.Write(writeOk, closeOk)];
      stop := WriteBatch(writeOk, closeOk);
    }

    /** One round of the send routine: close if asked to and the pipe is empty, take a
        batch, write it. The outcomes of the socket calls are parameters. The routine stops when
        the connection is closed, and a failed write closes it. With anything in the pipe and a
        healthy socket, a round writes the front of the pipe. */
    method SendRound(closeOk: bool, writeOk: bool, closeOk2: bool) returns (stop: bool, ghost es: seq<C.Event>)
      requires place == C.Top && C.Inv(cfg, View())
      modifies this
      ensures View() == C.Run(cfg, old(View()), es)
      ensures place == if stop then C.Done else C.Top
      ensures stop && (writeOk || closeOk2) ==> isClosed
      ensures isClosed ==> stop
      ensures old(outPipe) != [] && !old(isClosed) && writeOk ==> !stop && FrontWritten()
    {
      ghost var start := View();
      C.RunOneMore(cfg, start, [], C.LoopTop(closeOk));
      es := [] + [C.LoopTop(closeOk)];
      stop := BeginRound(closeOk);
      if stop {
        return;
      }
      ghost var more;
      stop, more := FillAndWrite(writeOk, closeOk2);
      C.RunAppend(cfg, start, es, more);
      es := es + more;
    }
  }
}
