/** From the sender's `SendMsg` to the receiver's pipe. */
module EndToEnd {
  import opened Counting
  import opened Framing
  import C = Connection
  import R = Receiver

  /** A graceful run: at most one close request, a socket that works, and the connection closed. */
  ghost predicate Graceful(cfg: C.Config, es: seq<C.Event>) {
    && (forall e | e in es :: C.Healthy(e))
    && C.CloseRequests(es) <= 1
    && C.Run(cfg, C.INITIAL, es).isClosed
  }

  /** Every message whose frame has arrived completely is among the first `n`. */
  ghost predicate NothingMissing(msgs: seq<NetMsg>, stream: seq<Byte>, n: nat)
    requires AllSendable(msgs)
  {
    forall k | n < k <= |msgs| :: |Frames(msgs[..k])| > |stream|
  }

  lemma LongPrefix(s: seq<Byte>, f: seq<Byte>, g: seq<Byte>)
    requires s <= f + g && |f| <= |s|
    ensures s == f + s[|f|..]
  {
  }

  lemma LaterIncomplete(msgs: seq<NetMsg>, stream: seq<Byte>, n: nat, rest: seq<Byte>, k: nat)
    requires AllSendable(msgs) && stream <= Frames(msgs) && n < k <= |msgs|
    requires stream == Frames(msgs[..n]) + rest && rest <= Frames(msgs[n..]) && NoFrame(rest)
    ensures |Frames(msgs[..k])| > |stream|
  {
    var f := Frames(msgs[..k]);
    if |f| <= |stream| {
      SplitFrames(msgs, k, |msgs|);
      assert msgs[..|msgs|] == msgs;
      LongPrefix(stream, f, Frames(msgs[k..|msgs|]));
      HigherIsComplete(msgs, n, k, rest, stream[|f|..]);
    }
  }

  lemma CompleteFramesDelivered(msgs: seq<NetMsg>, stream: seq<Byte>, n: nat, rest: seq<Byte>)
    requires AllSendable(msgs) && stream <= Frames(msgs) && n <= |msgs|
    requires stream == Frames(msgs[..n]) + rest && rest <= Frames(msgs[n..]) && NoFrame(rest)
    ensures NothingMissing(msgs, stream, n)
  {
    forall k | n < k <= |msgs| ensures |Frames(msgs[..k])| > |stream| {
      LaterIncomplete(msgs, stream, n, rest, k);
    }
  }

  /** A receiver is given a beginning `stream` of what the socket took in any run of the sender,
      faults included, cut into reads in any way and with any timeouts of its pipe. What it
      delivers is a beginning of the messages accepted for sending, in order. With reads for all
      of it, nothing that arrived completely is missing; and after a graceful close that let it
      read everything, it has delivered all accepted messages. */
  method Transfer(cfg: C.Config, ghost es: seq<C.Event>, stream: seq<Byte>, limits: seq<nat>, timeouts: nat)
    returns (conn: R.Conn)
    requires stream <= C.Run(cfg, C.INITIAL, es).written
    ensures var s := C.Run(cfg, C.INITIAL, es);
      && AllSendable(s.accepted) && conn.inPipe <= s.accepted
      && (Count(limits, R.Yields()) >= |stream| ==> NothingMissing(s.accepted, stream, |conn.inPipe|))
      && (Count(limits, R.Yields()) >= |stream| && stream == s.written && Graceful(cfg, es) ==>
            conn.inPipe == s.accepted)
  {
    ghost var s := C.Run(cfg, C.INITIAL, es);
    C.EveryRun(cfg, es);
    conn := new R.Conn();
    var received := conn.Recv(stream, limits, timeouts, s.accepted);
    if Count(limits, R.Yields()) >= |stream| {
      ghost var rest := conn.recvbuf[..conn.offset];
      assert stream[..received] == stream && conn.recvbuf[0..conn.offset] == rest;
      CompleteFramesDelivered(s.accepted, stream, |conn.inPipe|, rest);
      if stream == s.written && Graceful(cfg, es) {
        C.EndToEnd(cfg, es, |conn.inPipe|, rest);
      }
    }
  }
}
