/** The receiving side of a connection: reads arrive in arbitrary pieces, complete frames
    are delivered from a fixed buffer and the incomplete rest is moved to its front. */
module Receiver {
  import opened Counting
  import opened Framing

  function Min(a: nat, b: nat): nat {
    if a < b then a else b
  }

  /** A read that is not cut short by its deadline. */
  function Yields(): nat -> bool {
    (limit: nat) => limit > 0
  }

  lemma OneMoreRead(limits: seq<nat>, i: nat)
    requires i < |limits|
    ensures Count(limits[..i + 1], Yields()) == Count(limits[..i], Yields()) + One(limits[i] > 0)
  {
    assert limits[..i + 1] == limits[..i] + [limits[i]];
    CountAppend(limits[..i], limits[i], Yields());
  }

  /** Delivering the frame at the front keeps the account, too. */
  lemma FrameDelivered(msgs: seq<NetMsg>, k: nat, rest: seq<Byte>, received: seq<Byte>)
    requires AllSendable(msgs) && k <= |msgs| && rest <= Frames(msgs[k..])
    requires received == Frames(msgs[..k]) + rest && |rest| >= HEAD_SIZE && !NoFrame(rest)
    ensures HEAD_SIZE < Uint32At(rest, 0) < SOCKET_BUF_SIZE && Uint16At(rest, 4) == MAGIC_NUMBER
    ensures k < |msgs| && msgs[k] == NetMsg(Uint16At(rest, 6), rest[..Uint32At(rest, 0)][HEAD_SIZE..])
    ensures received == Frames(msgs[..k + 1]) + rest[Uint32At(rest, 0)..]
    ensures rest[Uint32At(rest, 0)..] <= Frames(msgs[k + 1..])
  {
    FrontFrame(msgs[k..], rest);
    var size := Uint32At(rest, 0);
    assert |Head(msgs[k])| == HEAD_SIZE && Frame(msgs[k])[HEAD_SIZE..] == msgs[k].data;
    OneMoreMessage(msgs, k);
    assert rest == rest[..size] + rest[size..];
    assert msgs[k..][1..] == msgs[k + 1..];
    assert Frames(msgs[..k]) + (Frame(msgs[k]) + rest[size..]) == Frames(msgs[..k]) + Frame(msgs[k]) + rest[size..];
  }

  lemma TakeMore(s: seq<Byte>, i: nat, n: nat)
    requires i + n <= |s|
    ensures s[..i + n] == s[..i] + s[i..i + n]
  {
  }

  lemma TakePrefix(s: seq<Byte>, t: seq<Byte>, n: nat)
    requires s <= t && n <= |s|
    ensures s[..n] <= t
  {
  }

  /** Reading more bytes keeps the account of what was received. */
  lemma BytesArrived(msgs: seq<NetMsg>, stream: seq<Byte>, k: nat, buffered: seq<Byte>, received: nat, recvLen: nat)
    requires AllSendable(msgs) && stream <= Frames(msgs) && received + recvLen <= |stream| && k <= |msgs|
    requires stream[..received] == Frames(msgs[..k]) + buffered
    ensures stream[..received + recvLen] == Frames(msgs[..k]) + (buffered + stream[received..received + recvLen])
    ensures buffered + stream[received..received + recvLen] <= Frames(msgs[k..])
  {
    var chunk := stream[received..received + recvLen];
    TakeMore(stream, received, recvLen);
    Associative(Frames(msgs[..k]), buffered, chunk);
    TakePrefix(stream, Frames(msgs), received + recvLen);
    RemainingBytes(msgs, k, buffered + chunk);
  }

  class Conn {
    const recvbuf: array<Byte>
    var offset: nat
    var inPipe: seq<NetMsg>

    constructor ()
      ensures offset == 0 && inPipe == [] && fresh(recvbuf) && recvbuf.Length == SOCKET_BUF_SIZE
    {
      recvbuf := new Byte[SOCKET_BUF_SIZE](_ => 0);
      offset := 0;
      inPipe := [];
    }

    /** The frames of the delivered messages, followed by the buffered bytes from `from`,
        are the bytes received so far, and what is buffered belongs to the messages still
        to come. */
    ghost predicate Holds(msgs: seq<NetMsg>, received: seq<Byte>, from: nat)
      requires AllSendable(msgs)
      reads this, recvbuf
    {
      && recvbuf.Length == SOCKET_BUF_SIZE && from <= offset <= SOCKET_BUF_SIZE
      && |inPipe| <= |msgs| && inPipe == msgs[..|inPipe|]
      && received == Frames(msgs[..|inPipe|]) + recvbuf[from..offset]
      && recvbuf[from..offset] <= Frames(msgs[|inPipe|..])
    }

    /** Between reads nothing complete is left in the buffer and there is room for more. */
    ghost predicate Idle(msgs: seq<NetMsg>, received: seq<Byte>)
      requires AllSendable(msgs)
      reads this, recvbuf
    {
      Holds(msgs, received, 0) && offset < SOCKET_BUF_SIZE && NoFrame(recvbuf[..offset])
    }

    /** Between reads, with everything sent received, everything has been delivered. */
    lemma AllArrived(msgs: seq<NetMsg>, received: seq<Byte>)
      requires AllSendable(msgs) && Idle(msgs, received) && received == Frames(msgs)
      ensures inPipe == msgs && offset == 0
    {
      var n := |msgs|;
      assert msgs[..n] == msgs && msgs[n..] == [];
      assert Frames(msgs[..n]) + [] == Frames(msgs[..|inPipe|]) + recvbuf[0..offset];
      assert recvbuf[0..offset] == recvbuf[..offset];
      DeliveryIsUnique(msgs, n, |inPipe|, [], recvbuf[..offset]);
    }

    /** One read of at most `limit` bytes from what the peer sent. */
    method Read(stream: seq<Byte>, pos: nat, limit: nat) returns (recvLen: nat)
      requires pos <= |stream| && offset <= recvbuf.Length
      modifies recvbuf
      ensures recvLen == Min(limit, Min(recvbuf.Length - offset, |stream| - pos))
      ensures recvbuf[..offset + recvLen] == old(recvbuf[..offset]) + stream[pos..pos + recvLen]
    {
      recvLen := Min(limit, Min(recvbuf.Length - offset, |stream| - pos));
      forall i | 0 <= i < recvLen {
        recvbuf[offset + i] := stream[pos + i];
      }
    }

    /** A complete frame starts at `from`. */
    ghost predicate FrameAt(from: nat)
      reads this, recvbuf
    {
      from <= offset <= recvbuf.Length && HEAD_SIZE <= offset - from && !NoFrame(recvbuf[from..offset])
    }

    /** Writes the frame at `readOffset` into the pipe; a timeout delivers nothing. */
    method DeliverOne(readOffset: nat, timeouts: nat, ghost msgs: seq<NetMsg>, ghost received: seq<Byte>)
      returns (size: nat, left: nat)
      requires AllSendable(msgs) && Holds(msgs, received, readOffset) && FrameAt(readOffset)
      modifies `inPipe
      ensures size == 0 ==>
        left < timeouts && inPipe == old(inPipe) && Holds(msgs, received, readOffset) && FrameAt(readOffset)
      ensures size > 0 ==> left == timeouts && Holds(msgs, received, readOffset + size)
    {
      ghost var rest := recvbuf[readOffset..offset];
      FrameDelivered(msgs, |inPipe|, rest, received);
      size := Uint32At(recvbuf[readOffset..offset], 0);
      var magic, msgType := Uint16At(recvbuf[readOffset..offset], 4), Uint16At(recvbuf[readOffset..offset], 6);
      if size >= SOCKET_BUF_SIZE || magic != MAGIC_NUMBER {
        assert false;
      }
      var data := recvbuf[readOffset..readOffset + size][HEAD_SIZE..];
      var timedOut: bool := *;
      if timedOut && timeouts > 0 {
        return 0, timeouts - 1;
      }
      assert recvbuf[readOffset..readOffset + size] == rest[..size];
      inPipe := inPipe + [NetMsg(msgType, data)];
      left := timeouts;
      assert recvbuf[readOffset + size..offset] == rest[size..];
    }

    /** Whether another complete frame follows. */
    method MoreToDeliver(readOffset: nat, ghost msgs: seq<NetMsg>, ghost received: seq<Byte>) returns (more: bool)
      requires AllSendable(msgs) && Holds(msgs, received, readOffset)
      ensures more ==> FrameAt(readOffset)
      ensures !more ==> NoFrame(recvbuf[readOffset..offset])
    {
      ghost var rest := recvbuf[readOffset..offset];
      if |rest| >= HEAD_SIZE {
        FrontFrame(msgs[|inPipe|..], rest);
      }
      more := false;
      if offset - readOffset > HEAD_SIZE {
        var head := recvbuf[readOffset..readOffset + HEAD_SIZE];
        assert head == rest[..HEAD_SIZE];
        var next := Uint32At(head, 0);
        if next >= SOCKET_BUF_SIZE {
          assert false;
        }
        more := next + readOffset <= offset;
      }
    }

    /** One turn of the inner loop: deliver a frame, or retry after a timeout. */
    method ProcessOne(readOffset: nat, timeouts: nat, ghost msgs: seq<NetMsg>, ghost received: seq<Byte>)
      returns (next: nat, left: nat, more: bool)
      requires AllSendable(msgs) && Holds(msgs, received, readOffset) && FrameAt(readOffset)
      modifies `inPipe
      ensures Holds(msgs, received, next)
      ensures if more then FrameAt(next) else NoFrame(recvbuf[next..offset]) && next > 0
      ensures offset == old(offset) && (next > readOffset || (next == readOffset && left < timeouts))
    {
      var size;
      size, left := DeliverOne(readOffset, timeouts, msgs, received);
      next := readOffset + size;
      if size == 0 {
        more := true;
      } else {
        more := MoreToDeliver(next, msgs, received);
      }
    }

    /** The incomplete rest becomes the whole content of the buffer. */
    method MoveToFront(readOffset: nat, ghost msgs: seq<NetMsg>, ghost received: seq<Byte>)
      requires AllSendable(msgs) && Holds(msgs, received, readOffset) && readOffset > 0
      requires NoFrame(recvbuf[readOffset..offset])
      modifies recvbuf, `offset
      ensures Idle(msgs, received)
    {
      ghost var rest := recvbuf[readOffset..offset];
      forall i | 0 <= i < offset - readOffset {
        recvbuf[i] := recvbuf[readOffset + i];
      }
      offset := offset - readOffset;
      assert recvbuf[..offset] == rest;
      assert recvbuf[0..offset] == rest;
    }

    /** Delivers every complete frame in the buffer, retrying a write that times out, and
        moves what is left to the front. */
    method Process(timeouts: nat, ghost msgs: seq<NetMsg>, ghost received: seq<Byte>) returns (left: nat)
      requires AllSendable(msgs) && Holds(msgs, received, 0) && FrameAt(0)
      modifies this, recvbuf
      ensures Idle(msgs, received)
    {
      var readOffset: nat := 0;
      var more := true;
      left := timeouts;
      while more
        invariant Holds(msgs, received, readOffset) && offset == old(offset)
        invariant if more then FrameAt(readOffset) else NoFrame(recvbuf[readOffset..offset]) && readOffset > 0
        decreases offset - readOffset, left, more
      {
        readOffset, left, more := ProcessOne(readOffset, left, msgs, received);
      }
      MoveToFront(readOffset, msgs, received);
    }

    /** Reads once and appends the bytes to the buffer: as many as the read yields, there is room
        for, and have been sent. */
    method ReadMore(stream: seq<Byte>, pos: nat, limit: nat, ghost msgs: seq<NetMsg>) returns (received: nat)
      requires AllSendable(msgs) && stream <= Frames(msgs) && pos <= |stream|
      requires Holds(msgs, stream[..pos], 0)
      modifies recvbuf, `offset
      ensures received == pos + Min(limit, Min(SOCKET_BUF_SIZE - old(offset), |stream| - pos))
      ensures Holds(msgs, stream[..received], 0)
    {
      ghost var buffered := recvbuf[0..offset];
      var recvLen := Read(stream, pos, limit);
      BytesArrived(msgs, stream, |inPipe|, buffered, pos, recvLen);
      assert buffered == old(recvbuf[..offset]);
      offset, received := offset + recvLen, pos + recvLen;
      assert recvbuf[0..offset] == buffered + stream[pos..pos + recvLen];
    }

    /** One turn of the outer loop: a read, and the delivery of what is complete. */
    method RecvOnce(stream: seq<Byte>, pos: nat, limit: nat, timeouts: nat, ghost msgs: seq<NetMsg>)
      returns (received: nat, left: nat)
      requires AllSendable(msgs) && stream <= Frames(msgs) && pos <= |stream|
      requires Idle(msgs, stream[..pos])
      modifies this, recvbuf
      ensures received == pos + Min(limit, Min(SOCKET_BUF_SIZE - old(offset), |stream| - pos))
      ensures Idle(msgs, stream[..received])
    {
      received, left := pos, timeouts;
      assert recvbuf[0..offset] == recvbuf[..offset];
      if offset < SOCKET_BUF_SIZE {
        received := ReadMore(stream, received, limit, msgs);
      }
      assert recvbuf[0..offset] == recvbuf[..offset];
      if offset < HEAD_SIZE {
        return;
      }
      FrontFrame(msgs[|inPipe|..], recvbuf[..offset]);
      var size := Uint32At(recvbuf[..offset], 0);
      if size <= HEAD_SIZE || size >= SOCKET_BUF_SIZE {
        assert false;
      }
      if offset < size {
        return;
      }
      left := Process(left, msgs, stream[..received]);
    }

    /** Receives `stream`, a beginning of the frames of `msgs`. Each entry of `limits` bounds
        one read, and up to `timeouts` writes into the pipe time out. Whatever the reads and
        timeouts, at the head of the loop the delivered messages and the buffered bytes are
        the bytes received, and nothing complete is left undelivered. None of the checks
        that close the connection is ever met. Every read that yields anything makes progress,
        so once there were enough of them all messages sent have been delivered. */
    method Recv(stream: seq<Byte>, limits: seq<nat>, timeouts: nat, ghost msgs: seq<NetMsg>) returns (received: nat)
      requires AllSendable(msgs) && stream <= Frames(msgs)
      requires recvbuf.Length == SOCKET_BUF_SIZE && offset == 0 && inPipe == []
      modifies this, recvbuf
      ensures received <= |stream| && Idle(msgs, stream[..received])
      ensures received >= Min(Count(limits, Yields()), |stream|)
      ensures stream == Frames(msgs) && Count(limits, Yields()) >= |stream| ==> inPipe == msgs && offset == 0
    {
      received := 0;
      var i, left := 0, timeouts;
      while i < |limits|
        invariant 0 <= i <= |limits| && received <= |stream|
        invariant Idle(msgs, stream[..received])
        invariant received >= Min(Count(limits[..i], Yields()), |stream|)
      {
        OneMoreRead(limits, i);
        received, left := RecvOnce(stream, received, limits[i], left, msgs);
        i := i + 1;
      }
      assert limits[..i] == limits;
      if received == |stream| && stream == Frames(msgs) {
        AllArrived(msgs, stream[..received]);
      }
    }
  }
}
