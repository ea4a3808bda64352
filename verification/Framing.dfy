/** The wire format: each message is a frame with an eight-byte head, and a connection
    carries the frames of its messages one after the other. */
module Framing {

  const SOCKET_BUF_SIZE := 65536
  const HEAD_SIZE := 8
  const MAGIC_NUMBER := 0x786d

  type Byte = b: int | 0 <= b < 256
  type Uint16 = n: int | 0 <= n < 0x1_0000

  datatype NetMsg = NetMsg(msgType: Uint16, data: seq<Byte>)

  function PutUint16(n: int): seq<Byte>
    requires 0 <= n < 0x1_0000
  {
    [n / 0x100, n % 0x100]
  }

  function PutUint32(n: int): seq<Byte>
    requires 0 <= n < 0x1_0000_0000
  {
    PutUint16(n / 0x1_0000) + PutUint16(n % 0x1_0000)
  }

  function Uint16At(s: seq<Byte>, i: nat): Uint16
    requires i + 2 <= |s|
  {
    (s[i] as int) * 0x100 + s[i + 1]
  }

  function Uint32At(s: seq<Byte>, i: nat): int
    requires i + 4 <= |s|
  {
    Uint16At(s, i) * 0x1_0000 + Uint16At(s, i + 2)
  }

  /** The messages a connection accepts for sending. */
  predicate Sendable(m: NetMsg) {
    0 < |m.data| < SOCKET_BUF_SIZE - HEAD_SIZE
  }

  predicate AllSendable(msgs: seq<NetMsg>) {
    forall m | m in msgs :: Sendable(m)
  }

  function Head(m: NetMsg): seq<Byte>
    requires Sendable(m)
  {
    PutUint32(|m.data| + HEAD_SIZE) + PutUint16(MAGIC_NUMBER) + PutUint16(m.msgType)
  }

  function Frame(m: NetMsg): seq<Byte>
    requires Sendable(m)
  {
    Head(m) + m.data
  }

  function Frames(msgs: seq<NetMsg>): seq<Byte>
    requires AllSendable(msgs)
  {
    if msgs == [] then [] else Frame(msgs[0]) + Frames(msgs[1..])
  }

  /** The head, byte by byte: the size of the whole frame and the message type, both with the
      high byte first, around the magic number. */
  lemma HeadBytes(m: NetMsg)
    requires Sendable(m)
    ensures var size := |m.data| + 8;
      Head(m) == [0, 0, size / 256, size % 256, 0x78, 0x6d, m.msgType / 256, m.msgType % 256]
  {
    assert PutUint16(|m.data| + HEAD_SIZE) == [(|m.data| + 8) / 256, (|m.data| + 8) % 256];
  }

  lemma Associative(a: seq<Byte>, b: seq<Byte>, c: seq<Byte>)
    ensures a + (b + c) == a + b + c
  {
  }

  lemma {:induction false} FramesAppend(a: seq<NetMsg>, b: seq<NetMsg>)
    requires AllSendable(a) && AllSendable(b)
    ensures Frames(a + b) == Frames(a) + Frames(b)
  {
    if a == [] {
      assert a + b == b;
    } else {
      FramesAppend(a[1..], b);
      assert (a + b)[0] == a[0] && (a + b)[1..] == a[1..] + b;
      Associative(Frame(a[0]), Frames(a[1..]), Frames(b));
    }
  }

  /** The head can be read back from any bytes that begin with it. */
  lemma HeadFields(m: NetMsg, s: seq<Byte>)
    requires Sendable(m) && |s| >= HEAD_SIZE && s[..HEAD_SIZE] == Head(m)
    ensures Uint32At(s, 0) == |m.data| + HEAD_SIZE
    ensures Uint16At(s, 4) == MAGIC_NUMBER
    ensures Uint16At(s, 6) == m.msgType
  {
    var h := Head(m);
    assert forall i | 0 <= i < 8 :: s[i] == h[i];
  }

  /** Bytes that hold no complete frame. */
  predicate NoFrame(s: seq<Byte>) {
    |s| < HEAD_SIZE || |s| < Uint32At(s, 0)
  }

  /** What a prefix of the frames begins with. */
  lemma FrontFrame(msgs: seq<NetMsg>, s: seq<Byte>)
    requires AllSendable(msgs) && s <= Frames(msgs) && |s| >= HEAD_SIZE
    ensures msgs != [] && s[..HEAD_SIZE] == Head(msgs[0])
    ensures HEAD_SIZE < Uint32At(s, 0) == |Frame(msgs[0])| < SOCKET_BUF_SIZE
    ensures Uint16At(s, 4) == MAGIC_NUMBER && Uint16At(s, 6) == msgs[0].msgType
    ensures |s| >= Uint32At(s, 0) ==>
      s[..Uint32At(s, 0)] == Frame(msgs[0]) && s[Uint32At(s, 0)..] <= Frames(msgs[1..])
  {
    var f := Frame(msgs[0]);
    assert |Head(msgs[0])| == 8;
    assert Frames(msgs) == f + Frames(msgs[1..]);
    assert s[..HEAD_SIZE] == Frames(msgs)[..HEAD_SIZE] == f[..HEAD_SIZE] == Head(msgs[0]);
    HeadFields(msgs[0], s);
    if |s| >= |f| {
      assert s[..|f|] == Frames(msgs)[..|f|] == f;
      assert s[|f|..] == Frames(msgs)[|f|..|s|];
      assert Frames(msgs)[|f|..] == Frames(msgs[1..]);
    }
  }

  lemma SplitFrames(msgs: seq<NetMsg>, j: nat, k: nat)
    requires AllSendable(msgs) && j <= k <= |msgs|
    ensures Frames(msgs[..k]) == Frames(msgs[..j]) + Frames(msgs[j..k])
    ensures j < k ==> |Frames(msgs[j..k])| >= |Frame(msgs[j])| >= HEAD_SIZE
  {
    assert msgs[..k] == msgs[..j] + msgs[j..k];
    FramesAppend(msgs[..j], msgs[j..k]);
  }

  lemma SamePrefix(p: seq<Byte>, a: seq<Byte>, b: seq<Byte>)
    requires p + a == p + b
    ensures a == b
  {
    assert a == (p + a)[|p|..] == (p + b)[|p|..] == b;
  }

  lemma HigherIsComplete(msgs: seq<NetMsg>, j: nat, k: nat, a: seq<Byte>, b: seq<Byte>)
    requires AllSendable(msgs) && j < k <= |msgs|
    requires Frames(msgs[..j]) + a == Frames(msgs[..k]) + b
    requires a <= Frames(msgs[j..])
    ensures !NoFrame(a)
  {
    SplitFrames(msgs, j, k);
    var middle := Frames(msgs[j..k]);
    assert Frames(msgs[..k]) + b == Frames(msgs[..j]) + (middle + b);
    SamePrefix(Frames(msgs[..j]), a, middle + b);
    assert msgs[j..k] != [] && msgs[j..k][0] == msgs[j..][0];
    FrontFrame(msgs[j..], a);
  }

  /** How the received bytes divide into delivered messages and the rest is unique, so the
      deliveries do not depend on how the stream was cut into reads. */
  lemma {:induction false} DeliveryIsUnique(msgs: seq<NetMsg>, j: nat, k: nat, a: seq<Byte>, b: seq<Byte>)
    requires AllSendable(msgs) && j <= |msgs| && k <= |msgs|
    requires Frames(msgs[..j]) + a == Frames(msgs[..k]) + b
    requires a <= Frames(msgs[j..]) && b <= Frames(msgs[k..]) && NoFrame(a) && NoFrame(b)
    ensures j == k && a == b
  {
    if j < k {
      HigherIsComplete(msgs, j, k, a, b);
    } else if k < j {
      HigherIsComplete(msgs, k, j, b, a);
    }
  }

  lemma BeginsWith(p: seq<Byte>, s: seq<Byte>, t: seq<Byte>)
    requires p + s <= p + t
    ensures s <= t
  {
    assert s == (p + s)[|p|..];
    assert t == (p + t)[|p|..];
    assert p + s == (p + t)[..|p + s|];
  }

  /** Bytes after the frames of the first `k` messages begin the frames of the others. */
  lemma RemainingBytes(msgs: seq<NetMsg>, k: nat, s: seq<Byte>)
    requires AllSendable(msgs) && k <= |msgs| && Frames(msgs[..k]) + s <= Frames(msgs)
    ensures s <= Frames(msgs[k..])
  {
    SplitFrames(msgs, k, |msgs|);
    assert msgs[..|msgs|] == msgs && msgs[k..|msgs|] == msgs[k..];
    BeginsWith(Frames(msgs[..k]), s, Frames(msgs[k..]));
  }

  lemma OneMoreMessage(msgs: seq<NetMsg>, k: nat)
    requires AllSendable(msgs) && k < |msgs|
    ensures Frames(msgs[..k + 1]) == Frames(msgs[..k]) + Frame(msgs[k])
  {
    assert msgs[..k + 1] == msgs[..k] + [msgs[k]];
    FramesAppend(msgs[..k], [msgs[k]]);
    assert Frames([msgs[k]]) == Frame(msgs[k]) + Frames([]);
  }
}
