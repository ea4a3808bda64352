/** Round-robin choice of a server. A probe finds the server it lands on live or not. */
module RoundRobin {
  import opened Counting

  /** The position `n` places further round a ring of `size`, at most one round away. */
  function Ahead(i: nat, n: nat, size: nat): nat
    requires i < size && n <= size
  {
    if i + n < size then i + n else i + n - size
  }

  function Advance(i: nat, size: nat): nat {
    if i + 1 >= size then 0 else i + 1
  }

  /** Probing from `start`, the first live server is met after `n` others. */
  ghost predicate FirstLive(live: seq<bool>, start: nat, n: nat)
    requires start < |live|
  {
    && n < |live|
    && live[Ahead(start, n, |live|)]
    && forall k | 0 <= k < n :: !live[Ahead(start, k, |live|)]
  }

  /** How far round the ring `pos` lies from `start`. */
  function Distance(start: nat, size: nat, pos: nat): (k: nat)
    requires start < size && pos < size
    ensures k < size && Ahead(start, k, size) == pos
    ensures forall j | 0 <= j < size && Ahead(start, j, size) == pos :: j == k
  {
    if pos >= start then pos - start else pos + size - start
  }

  lemma NoneLive(live: seq<bool>, start: nat)
    requires start < |live| && forall k | 0 <= k < |live| :: !live[Ahead(start, k, |live|)]
    ensures true !in live
  {
    forall p | 0 <= p < |live| ensures !live[p] {
      var k := Distance(start, |live|, p);
    }
  }

  // ----- rounds

  function AtPlace(live: seq<bool>, pos: nat): seq<nat>
    requires pos < |live|
  {
    if live[pos] then [pos] else []
  }

  /** The live positions in cyclic order from `start`, leaving out the first `o` places. */
  function LiveFrom(live: seq<bool>, start: nat, o: nat): seq<nat>
    requires start < |live| && o <= |live|
    decreases |live| - o
  {
    if o == |live| then []
    else
      var pos := Ahead(start, o, |live|);
      AtPlace(live, pos) + LiveFrom(live, start, o + 1)
  }

  function Is(pos: nat): nat -> bool {
    (p: nat) => p == pos
  }

  function Open(): bool -> bool {
    (b: bool) => b
  }

  lemma {:induction false} SomeLive(live: seq<bool>, start: nat, o: nat)
    requires start < |live| && o <= |live| && LiveFrom(live, start, o) != []
    ensures true in live
    decreases |live| - o
  {
    if !live[Ahead(start, o, |live|)] {
      SomeLive(live, start, o + 1);
    }
  }

  lemma {:induction false} LiveFromCount(live: seq<bool>, start: nat, o: nat, pos: nat)
    requires start < |live| && o <= |live| && pos < |live|
    ensures Count(LiveFrom(live, start, o), Is(pos)) ==
      One(live[pos] && o <= Distance(start, |live|, pos))
    decreases |live| - o
  {
    if o < |live| {
      LiveFromCount(live, start, o + 1, pos);
      var here := Ahead(start, o, |live|);
      assert here == pos <==> o == Distance(start, |live|, pos);
      var one: seq<nat> := [here];
      assert Count(one, Is(pos)) == Count(one[1..], Is(pos)) + One(here == pos);
      CountConcat(one, LiveFrom(live, start, o + 1), Is(pos));
      assert !live[here] ==> LiveFrom(live, start, o) == LiveFrom(live, start, o + 1);
      assert live[here] ==> LiveFrom(live, start, o) == one + LiveFrom(live, start, o + 1);
    }
  }

  lemma {:induction false} LiveFromSize(live: seq<bool>, start: nat, o: nat)
    requires start < |live| && o <= |live|
    ensures |LiveFrom(live, start, o)| == Count((live[start..] + live[..start])[o..], Open())
    decreases |live| - o
  {
    var ring := live[start..] + live[..start];
    if o < |live| {
      LiveFromSize(live, start, o + 1);
      assert ring[o..] == [ring[o]] + ring[o + 1..];
      assert ring[o] == live[Ahead(start, o, |live|)];
    }
  }

  /** A round is fair: from any position it has as many picks as there are live servers, and
      visits every live server exactly once and no other. */
  lemma RoundIsFair(live: seq<bool>, start: nat)
    requires start < |live|
    ensures |LiveFrom(live, start, 0)| == Count(live, Open())
    ensures forall pos | 0 <= pos < |live| :: Count(LiveFrom(live, start, 0), Is(pos)) == One(live[pos])
  {
    LiveFromSize(live, start, 0);
    CountConcat(live[start..], live[..start], Open());
    CountConcat(live[..start], live[start..], Open());
    assert live[..start] + live[start..] == live;
    assert (live[start..] + live[..start])[0..] == live[start..] + live[..start];
    forall pos | 0 <= pos < |live| ensures Count(LiveFrom(live, start, 0), Is(pos)) == One(live[pos]) {
      LiveFromCount(live, start, 0, pos);
      assert Distance(start, |live|, pos) >= 0;
    }
  }

  // ----- one round after another

  /** The next server comes last in the round after it. */
  function Turn(round: seq<nat>): seq<nat>
    requires round != []
  {
    round[1..] + [round[0]]
  }

  /** The first `n` servers when a round is repeated endlessly. */
  function Cycle(round: seq<nat>, n: nat): (ps: seq<nat>)
    requires round != []
    ensures |ps| == n
    decreases n
  {
    if n == 0 then [] else [round[0]] + Cycle(Turn(round), n - 1)
  }

  lemma {:induction false} CycleSplit(round: seq<nat>, j: nat, n: nat)
    requires round != [] && j <= |round|
    ensures Cycle(round, j + n) == round[..j] + Cycle(round[j..] + round[..j], n)
    decreases j
  {
    if j == 0 {
      assert round[0..] + round[..0] == round;
    } else {
      var later := round[j - 1..] + round[..j - 1];
      CycleSplit(round, j - 1, n + 1);
      assert Turn(later) == round[j..] + round[..j];
      assert Cycle(later, n + 1) == [round[j - 1]] + Cycle(Turn(later), n);
      assert round[..j] == round[..j - 1] + [round[j - 1]];
    }
  }

  /** It is the round over and over, cut off after `n` servers. */
  lemma CycleRepeats(round: seq<nat>, n: nat)
    requires round != []
    ensures Cycle(round, |round| + n) == round + Cycle(round, n)
    ensures n <= |round| ==> Cycle(round, n) == round[..n]
  {
    var m := |round|;
    CycleSplit(round, m, n);
    assert round[m..] + round[..m] == round && round[..m] == round;
    if n <= m {
      CycleSplit(round, n, 0);
    }
  }

  lemma NextAhead(start: nat, o: nat, size: nat)
    requires start < size && o < size
    ensures Ahead(Ahead(start, 1, size), o, size) == if o + 1 == size then start else Ahead(start, o + 1, size)
  {
  }

  lemma Associative(a: seq<nat>, b: seq<nat>, c: seq<nat>)
    ensures a + (b + c) == a + b + c
  {
  }

  /** Starting one place later moves the first place, if live, to the end of the round. */
  lemma {:induction false} LaterStart(live: seq<bool>, start: nat, o: nat)
    requires start < |live| && o < |live|
    ensures LiveFrom(live, Ahead(start, 1, |live|), o) == LiveFrom(live, start, o + 1) + AtPlace(live, start)
    decreases |live| - o
  {
    NextAhead(start, o, |live|);
    if o + 1 < |live| {
      LaterStart(live, start, o + 1);
      var pos := Ahead(start, o + 1, |live|);
      Associative(AtPlace(live, pos), LiveFrom(live, start, o + 2), AtPlace(live, start));
    }
  }

  lemma FirstLiveLater(live: seq<bool>, start: nat, n: nat)
    requires start < |live| && FirstLive(live, start, n) && n > 0
    ensures var next := Ahead(start, 1, |live|);
      !live[start] && FirstLive(live, next, n - 1) && Ahead(next, n - 1, |live|) == Ahead(start, n, |live|)
  {
    var next := Ahead(start, 1, |live|);
    assert Ahead(start, 0, |live|) == start;
    forall k | 0 <= k < n ensures Ahead(next, k, |live|) == Ahead(start, k + 1, |live|) {}
  }

  lemma PassDead(live: seq<bool>, start: nat)
    requires start < |live| && !live[start]
    ensures LiveFrom(live, Ahead(start, 1, |live|), 0) == LiveFrom(live, start, 0)
  {
    assert Ahead(start, 0, |live|) == start;
    LaterStart(live, start, 0);
    assert LiveFrom(live, start, 1) + [] == [] + LiveFrom(live, start, 1);
  }

  lemma PickHere(live: seq<bool>, start: nat)
    requires start < |live| && live[start]
    ensures var round := LiveFrom(live, start, 0);
      round != [] && round[0] == start && LiveFrom(live, Advance(start, |live|), 0) == Turn(round)
  {
    assert Ahead(start, 0, |live|) == start && Ahead(start, 1, |live|) == Advance(start, |live|);
    LaterStart(live, start, 0);
    assert LiveFrom(live, start, 0) == [start] + LiveFrom(live, start, 1);
  }

  /** A pick turns the round by one. */
  lemma {:induction false} PickTurns(live: seq<bool>, start: nat, n: nat)
    requires start < |live| && FirstLive(live, start, n)
    ensures var pos := Ahead(start, n, |live|); var round := LiveFrom(live, start, 0);
      round != [] && round[0] == pos && LiveFrom(live, Advance(pos, |live|), 0) == Turn(round)
    decreases n
  {
    if n == 0 {
      PickHere(live, start);
    } else {
      FirstLiveLater(live, start, n);
      PassDead(live, start);
      PickTurns(live, Ahead(start, 1, |live|), n - 1);
    }
  }

  class Client {
    var allSvrId: seq<nat>
    var robinIdx: nat

    ghost predicate Valid()
      reads this
    {
      robinIdx < |allSvrId|
    }

    constructor (ids: seq<nat>)
      requires ids != []
      ensures Valid() && allSvrId == ids && robinIdx == 0
    {
      allSvrId, robinIdx := ids, 0;
    }

    /** Picks a server for one message. `live` says of each position whether there is an open
        connection. The pick is the first live server in cyclic order; it fails exactly when
        none is live, after one full round that leaves the position where it was. */
    method PickRobin(live: seq<bool>) returns (picked: bool, pos: nat, probes: nat)
      requires Valid() && |live| == |allSvrId|
      modifies `robinIdx
      ensures Valid()
      ensures picked <==> true in live
      ensures picked ==> probes >= 1 && FirstLive(live, old(robinIdx), probes - 1)
      ensures picked ==> pos == Ahead(old(robinIdx), probes - 1, |live|) && robinIdx == Advance(pos, |live|)
      ensures !picked ==> probes == |live| && robinIdx == old(robinIdx)
    {
      ghost var start := robinIdx;
      var failCount := 0;
      probes := 0;
      assert Ahead(start, 0, |live|) == start;
      while true
        invariant probes == failCount < |live| && robinIdx < |live|
        invariant robinIdx == Ahead(start, probes, |live|)
        invariant forall k | 0 <= k < probes :: !live[Ahead(start, k, |live|)]
        decreases |live| - probes
      {
        var idx := robinIdx;
        robinIdx := robinIdx + 1;
        if robinIdx >= |allSvrId| {
          robinIdx := 0;
        }
        probes := probes + 1;
        if !live[idx] {
          failCount := failCount + 1;
        } else {
          return true, idx, probes;
        }
        if failCount == |allSvrId| {
          NoneLive(live, start);
          return false, idx, probes;
        }
      }
    }

    /** One pick, and what it does to the round. */
    method PickNext(live: seq<bool>) returns (picked: bool, pos: nat)
      requires Valid() && |live| == |allSvrId|
      modifies `robinIdx
      ensures Valid()
      ensures var round := LiveFrom(live, old(robinIdx), 0); picked <==> round != []
      ensures var round := LiveFrom(live, old(robinIdx), 0);
        if picked then pos == round[0] && LiveFrom(live, robinIdx, 0) == Turn(round) else robinIdx == old(robinIdx)
    {
      ghost var here := robinIdx;
      var probes;
      picked, pos, probes := PickRobin(live);
      if picked {
        PickTurns(live, here, probes - 1);
      } else if LiveFrom(live, here, 0) != [] {
        SomeLive(live, here, 0);
        assert false;
      }
    }

    /** Picks for `n` messages in a row: the live servers in cyclic order from the current
        position, over and over; none if no server is live. */
    method PickMany(live: seq<bool>, n: nat) returns (ps: seq<nat>)
      requires Valid() && |live| == |allSvrId|
      modifies `robinIdx
      ensures Valid()
      ensures var round := LiveFrom(live, old(robinIdx), 0); ps == if round == [] then [] else Cycle(round, n)
    {
      ghost var round := LiveFrom(live, robinIdx, 0);
      ps := [];
      while |ps| < n
        invariant Valid() && |ps| <= n && (LiveFrom(live, robinIdx, 0) == [] <==> round == [])
        invariant round == [] ==> ps == []
        invariant round != [] ==> ps + Cycle(LiveFrom(live, robinIdx, 0), n - |ps|) == Cycle(round, n)
        decreases n - |ps|
      {
        ghost var now := LiveFrom(live, robinIdx, 0);
        var picked, pos := PickNext(live);
        if !picked {
          break;
        }
        assert ps + ([pos] + Cycle(Turn(now), n - |ps| - 1)) == ps + [pos] + Cycle(Turn(now), n - |ps| - 1);
        ps := ps + [pos];
      }
    }
  }
}
