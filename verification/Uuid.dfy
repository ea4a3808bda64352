/** The id generator: 32-bit ids, 0 reserved as the invalid id. */
module Uuid {

  const MAX_ID := 0xffff_ffff
  const TWO_32 := 0x1_0000_0000

  type Uint32 = n: int | 0 <= n < TWO_32

  /** The atomic addition, wrapping around. */
  function AddUint32(a: Uint32, n: nat): Uint32 {
    (a + n) % TWO_32
  }

  /** The next id when the check and the addition are one step. */
  function NextID(id: Uint32): Uint32 {
    if id == MAX_ID then AddUint32(id, 2) else AddUint32(id, 1)
  }

  /** The id returned by the last of `k` calls. */
  function Generated(id: Uint32, k: nat): Uint32 {
    if k == 0 then id else NextID(Generated(id, k - 1))
  }

  class UuidGen {
    var id: Uint32

    constructor ()
      ensures id == 0
    {
      id := 0;
    }

    method GenID() returns (r: Uint32)
      modifies this
      ensures r == id == NextID(old(id))
    {
      if id == MAX_ID {
        id := AddUint32(id, 2);
      } else {
        id := AddUint32(id, 1);
      }
      r := id;
    }
  }

  lemma NextResidue(n: nat)
    ensures (n + 1) % MAX_ID == if n % MAX_ID == MAX_ID - 1 then 0 else n % MAX_ID + 1
  {
  }

  lemma FirstOnRing(id: Uint32)
    ensures NextID(id) == (id + MAX_ID) % MAX_ID + 1
  {
    if id < MAX_ID {
      assert (id + MAX_ID) % MAX_ID == id;
    }
  }

  lemma NextOnRing(n: nat)
    ensures NextID(n % MAX_ID + 1) == (n + 1) % MAX_ID + 1
  {
    NextResidue(n);
  }

  /** The ids go round through 1 to 2^32 - 1. */
  lemma {:induction false} GeneratedValue(id: Uint32, k: nat)
    requires k > 0
    ensures Generated(id, k) == (id + k + MAX_ID - 1) % MAX_ID + 1
  {
    if k == 1 {
      assert Generated(id, 0) == id;
      FirstOnRing(id);
    } else {
      GeneratedValue(id, k - 1);
      NextOnRing(id + k + MAX_ID - 2);
      assert id + (k - 1) + MAX_ID - 1 == id + k + MAX_ID - 2;
      assert id + k + MAX_ID - 2 + 1 == id + k + MAX_ID - 1;
    }
  }

  lemma DifferentResidues(a: nat, b: nat)
    requires a < b < a + MAX_ID
    ensures a % MAX_ID != b % MAX_ID
  {
  }

  /** No id is 0, and within 2^32 - 1 consecutive calls no id repeats. */
  lemma GeneratedAreDistinct(id: Uint32, i: nat, j: nat)
    requires 0 < i < j < i + MAX_ID
    ensures Generated(id, i) != 0 && Generated(id, i) != Generated(id, j)
  {
    GeneratedValue(id, i);
    GeneratedValue(id, j);
    var a, b := id + i + MAX_ID - 1, id + j + MAX_ID - 1;
    if a % MAX_ID == b % MAX_ID {
      DifferentResidues(a, b);
    }
  }

  // ----- concurrent calls

  /** The check and the addition of one call are two steps; other calls may come between.
      The last four fields only record what happened. */
  datatype State = State(
    id: Uint32,
    pending: map<nat, nat>,    // what each caller that has checked is going to add
    seenAt: map<nat, nat>,     // how far the counter had come at its check
    grown: nat,                // everything added so far
    marks: seq<nat>,           // how far the counter had come at each return
    returned: seq<Uint32>)

  const INITIAL := State(0, map[], map[], 0, [], [])

  datatype Event = Check(caller: nat) | Add(caller: nat)

  function Step(s: State, e: Event): State {
    match e
    case Check(c) =>
      if c in s.pending then s
      else s.(pending := s.pending[c := if s.id == MAX_ID then 2 else 1], seenAt := s.seenAt[c := s.grown])
    case Add(c) =>
      if c !in s.pending then s
      else
        var id, grown := AddUint32(s.id, s.pending[c]), s.grown + s.pending[c];
        State(id, s.pending - {c}, s.seenAt - {c}, grown, s.marks + [grown], s.returned + [id])
  }

  function Run(s: State, es: seq<Event>): State
    decreases |es|
  {
    if es == [] then s else Run(Step(s, es[0]), es[1..])
  }

  lemma {:induction false} RunAppend(s: State, es: seq<Event>, fs: seq<Event>)
    ensures Run(s, es + fs) == Run(Run(s, es), fs)
    decreases |es|
  {
    if es == [] {
      assert es + fs == fs;
    } else {
      assert (es + fs)[1..] == es[1..] + fs;
      RunAppend(Step(s, es[0]), es[1..], fs);
    }
  }

  /** What is going to be added was decided by the counter's value at the check. */
  ghost predicate PendingInv(s: State) {
    && s.pending.Keys == s.seenAt.Keys
    && forall c | c in s.pending ::
         c in s.seenAt && s.seenAt[c] <= s.grown
         && s.pending[c] == if s.seenAt[c] % TWO_32 == MAX_ID then 2 else 1
  }

  ghost predicate ReturnedInv(s: State) {
    && s.id == s.grown % TWO_32
    && |s.marks| == |s.returned|
    && (forall k | 0 <= k < |s.marks| :: s.returned[k] == s.marks[k] % TWO_32)
    && (forall k | 0 < k < |s.marks| :: s.marks[k - 1] < s.marks[k] <= s.marks[k - 1] + 2)
    && (s.marks != [] ==> s.marks[|s.marks| - 1] == s.grown)
  }

  lemma AddedResidue(a: nat, n: nat)
    requires n <= 2
    ensures AddUint32(a % TWO_32, n) == (a + n) % TWO_32
  {
    var q, r := a / TWO_32, a % TWO_32;
    assert a == TWO_32 * q + r;
    if r + n < TWO_32 {
      assert a + n == TWO_32 * q + (r + n);
    } else {
      assert a + n == TWO_32 * (q + 1) + (r + n - TWO_32);
    }
  }

  lemma AddKeepsInv(s: State, c: nat)
    requires PendingInv(s) && ReturnedInv(s) && c in s.pending
    ensures PendingInv(Step(s, Add(c))) && ReturnedInv(Step(s, Add(c)))
  {
    var t := Step(s, Add(c));
    AddedResidue(s.grown, s.pending[c]);
    forall k | 0 < k < |t.marks| ensures t.marks[k - 1] < t.marks[k] <= t.marks[k - 1] + 2 {
      if k < |s.marks| {
        assert s.marks[k - 1] < s.marks[k] <= s.marks[k - 1] + 2;
      }
    }
  }

  lemma StepKeepsInv(s: State, e: Event)
    requires PendingInv(s) && ReturnedInv(s)
    ensures PendingInv(Step(s, e)) && ReturnedInv(Step(s, e))
  {
    if e.Add? && e.caller in s.pending {
      AddKeepsInv(s, e.caller);
    }
  }

  lemma {:induction false} RunKeepsInv(s: State, es: seq<Event>)
    requires PendingInv(s) && ReturnedInv(s)
    ensures PendingInv(Run(s, es)) && ReturnedInv(Run(s, es))
    decreases |es|
  {
    if es != [] {
      StepKeepsInv(s, es[0]);
      RunKeepsInv(Step(s, es[0]), es[1..]);
    }
  }

  lemma {:induction false} MarksGrow(marks: seq<nat>, i: nat, j: nat)
    requires i < j < |marks| && forall k | 0 < k < |marks| :: marks[k - 1] < marks[k] <= marks[k - 1] + 2
    ensures marks[i] < marks[j] <= marks[i] + 2 * (j - i)
    decreases j
  {
    if i + 1 < j {
      MarksGrow(marks, i, j - 1);
    }
  }

  lemma ApartResidues(a: nat, b: nat)
    requires a < b < a + TWO_32
    ensures a % TWO_32 != b % TWO_32
  {
  }

  /** Uniqueness survives concurrency: however the checks and additions of any number of
      callers interleave, ids returned fewer than 2^31 calls apart are different. */
  lemma ConcurrentAreDistinct(es: seq<Event>, i: nat, j: nat)
    requires var s := Run(INITIAL, es); i < j < |s.returned| && j - i < TWO_32 / 2
    ensures Run(INITIAL, es).returned[i] != Run(INITIAL, es).returned[j]
  {
    var s := Run(INITIAL, es);
    RunKeepsInv(INITIAL, es);
    MarksGrow(s.marks, i, j);
    ApartResidues(s.marks[i], s.marks[j]);
  }

  lemma StaleResidues(seen: nat, now: nat)
    requires seen <= now < seen + MAX_ID
    ensures AddUint32(now % TWO_32, if seen % TWO_32 == MAX_ID then 2 else 1) == 0 <==>
      now % TWO_32 == MAX_ID && seen < now
  {
    if seen < now {
      ApartResidues(seen, now);
      if seen % TWO_32 == MAX_ID && now % TWO_32 == MAX_ID - 1 {
        ApartResidues(now + 1, seen + TWO_32);
      }
    }
  }

  lemma StaleSum(id: Uint32, n: nat)
    requires 1 <= n <= 2
    ensures AddUint32(id, n) == 0 <==> id == TWO_32 - n
  {
  }

  /** The reserved id 0 does come out: exactly when the counter stands where the amount decided
      at the check takes it to 0. Within a whole round of the check that is exactly when it
      stands at its maximum and has moved since. */
  lemma ZeroIffStale(es: seq<Event>, c: nat)
    requires var s := Run(INITIAL, es); c in s.pending && c in s.seenAt
    ensures var s := Run(INITIAL, es);
      Step(s, Add(c)).id == 0 <==> s.id == if s.seenAt[c] % TWO_32 == MAX_ID then MAX_ID - 1 else MAX_ID
    ensures var s := Run(INITIAL, es);
      s.seenAt[c] <= s.grown &&
      (s.grown - s.seenAt[c] < MAX_ID ==> (Step(s, Add(c)).id == 0 <==> s.id == MAX_ID && s.seenAt[c] < s.grown))
  {
    var s := Run(INITIAL, es);
    RunKeepsInv(INITIAL, es);
    StaleSum(s.id, s.pending[c]);
    if s.grown - s.seenAt[c] < MAX_ID {
      StaleResidues(s.seenAt[c], s.grown);
    }
  }

  /** One call after another. */
  function Calls(n: nat): seq<Event> {
    if n == 0 then [] else Calls(n - 1) + [Check(0), Add(0)]
  }

  lemma CallInOneGo(s: State, c: nat)
    requires c !in s.pending
    ensures var t := Run(s, [Check(c), Add(c)]);
      t.id == NextID(s.id) && t.pending == s.pending && t.returned == s.returned + [t.id]
  {
    var u := Step(s, Check(c));
    var t := Step(u, Add(c));
    assert Run(t, []) == t;
    assert Run(u, [Add(c)]) == t;
    assert [Check(c), Add(c)][1..] == [Add(c)];
  }

  /** Without interleaving the ids are those of consecutive atomic calls. */
  lemma {:induction false} CallsAreGenerated(n: nat)
    ensures var s := Run(INITIAL, Calls(n)); s.id == Generated(0, n) && s.pending == map[]
  {
    if n > 0 {
      CallsAreGenerated(n - 1);
      RunAppend(INITIAL, Calls(n - 1), [Check(0), Add(0)]);
      CallInOneGo(Run(INITIAL, Calls(n - 1)), 0);
    }
  }

  lemma BothAdd(s: State)
    requires s.id == MAX_ID - 1 && s.pending == map[]
    ensures Run(s, [Check(1), Check(2), Add(1), Add(2)]).id == 0
  {
    var s1 := Step(s, Check(1));
    var s2 := Step(s1, Check(2));
    var s3 := Step(s2, Add(1));
    var s4 := Step(s3, Add(2));
    assert Run(s4, []) == s4;
    assert Run(s3, [Add(2)]) == s4;
    assert Run(s2, [Add(1), Add(2)]) == s4;
    assert Run(s1, [Check(2), Add(1), Add(2)]) == s4;
    assert [Check(1), Check(2), Add(1), Add(2)][1..] == [Check(2), Add(1), Add(2)];
  }

  /** Such a run: with one id left before the maximum, two callers check, then both add. */
  lemma ZeroComesOut() returns (es: seq<Event>)
    ensures Run(INITIAL, es).id == 0 && es != [] && es[|es| - 1].Add?
  {
    var before := Calls(MAX_ID - 1);
    var s := Run(INITIAL, before);
    CallsAreGenerated(MAX_ID - 1);
    GeneratedValue(0, MAX_ID - 1);
    es := before + [Check(1), Check(2), Add(1), Add(2)];
    RunAppend(INITIAL, before, [Check(1), Check(2), Add(1), Add(2)]);
    BothAdd(s);
  }
}
