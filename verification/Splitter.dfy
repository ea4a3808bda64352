/** The exhaustive splitter: at the lowest tile it tries a run, a triplet and a pair, and
    splits what remains of the hand in each case. */
module Splitter {
  import opened Tiles

  /** One outcome of splitting: a run is named by its lowest tile, a pair and a triplet by
      their tile, and `left` is what could not be grouped. */
  datatype Result = Result(seqs: seq<Tile>, twos: seq<Tile>, threes: seq<Tile>, left: seq<Tile>)

  function PartitionOf(r: Result): Partition {
    Partition(multiset(r.seqs), multiset(r.twos), multiset(r.threes))
  }

  predicate StartsRun(ts: seq<Tile>) {
    ts != [] && ts[0].suit != Z && Shift(ts[0], 1) in ts && Shift(ts[0], 2) in ts
  }

  predicate StartsTriplet(ts: seq<Tile>) {
    |ts| >= 3 && ts[0] == ts[1] == ts[2]
  }

  predicate StartsPair(ts: seq<Tile>) {
    |ts| >= 2 && ts[0] == ts[1]
  }

  function RemoveFirst(ts: seq<Tile>, t: Tile): (r: seq<Tile>)
    ensures |r| <= |ts|
  {
    if ts == [] then [] else if ts[0] == t then ts[1..] else [ts[0]] + RemoveFirst(ts[1..], t)
  }

  function WithoutRun(ts: seq<Tile>): (r: seq<Tile>)
    requires ts != []
    ensures |r| < |ts|
  {
    RemoveFirst(RemoveFirst(ts[1..], Shift(ts[0], 1)), Shift(ts[0], 2))
  }

  function Join(x: Result, r: Result): Result {
    Result(r.seqs + x.seqs, r.twos + x.twos, r.threes + x.threes, r.left)
  }

  function Merged(x: Result, rs: seq<Result>): seq<Result> {
    seq(|rs|, i requires 0 <= i < |rs| => Join(x, rs[i]))
  }

  function Run(t: Tile): Result { Result([t], [], [], []) }
  function Pair(t: Tile): Result { Result([], [t], [], []) }
  function Triplet(t: Tile): Result { Result([], [], [t], []) }

  function RunSplits(ts: seq<Tile>): seq<Result>
    decreases |ts|, 0
  {
    if StartsRun(ts) then Merged(Run(ts[0]), Splits(WithoutRun(ts))) else []
  }

  function TripletSplits(ts: seq<Tile>): seq<Result>
    decreases |ts|, 0
  {
    if StartsTriplet(ts) then Merged(Triplet(ts[0]), Splits(ts[3..])) else []
  }

  function PairSplits(ts: seq<Tile>): seq<Result>
    decreases |ts|, 0
  {
    if StartsPair(ts) then Merged(Pair(ts[0]), Splits(ts[2..])) else []
  }

  /** All outcomes, branch by branch. */
  function Splits(ts: seq<Tile>): seq<Result>
    decreases |ts|, 1
  {
    if !StartsRun(ts) && !StartsPair(ts) then
      [Result([], [], [], ts)]
    else
      RunSplits(ts) + TripletSplits(ts) + PairSplits(ts)
  }

  /** A tile value fits in 32 bits. */
  predicate Typed(ts: seq<Tile>) {
    forall t | t in ts :: 0 <= t.value < 0x1_0000_0000
  }

  /** Subtraction of 32-bit unsigned values. */
  function Diff32(a: int, b: int): int {
    (a - b) % 0x1_0000_0000
  }

  // ----- the algorithm

  lemma ThreeTiles(ts: seq<Tile>)
    requires StartsRun(ts)
    ensures |ts| >= 3
  {
    var i :| 0 <= i < |ts| && ts[i] == Shift(ts[0], 1);
    var j :| 0 <= j < |ts| && ts[j] == Shift(ts[0], 2);
  }

  /** In a sorted hand a gap, or the end of the suit, ends the search. */
  lemma NothingFurther(ts: seq<Tile>, i: nat, n: nat)
    requires Sorted(ts) && 0 < i < |ts| && 1 <= n <= 2
    requires forall k | 0 <= k < i :: ts[k].value < ts[0].value + n
    requires ts[i].suit != ts[0].suit || ts[i].value > ts[0].value + n
    ensures !StartsRun(ts)
  {
    assert !Less(ts[i], ts[0]);
    forall k | 0 <= k < |ts| ensures ts[k] != Shift(ts[0], n) {
      assert k > i ==> !Less(ts[k], ts[i]);
    }
  }

  /** Finds the positions of the second and third tile of a run that starts at the first. */
  method FindSeq(ts: seq<Tile>) returns (idx: seq<nat>)
    requires Sorted(ts) && Typed(ts)
    ensures idx == [] <==> !StartsRun(ts)
    ensures idx != [] ==> |idx| == 3 && 0 == idx[0] < idx[1] < idx[2] < |ts|
    ensures idx != [] ==> ts[idx[1]] == Shift(ts[0], 1) && ts[idx[2]] == Shift(ts[0], 2)
  {
    if |ts| < 3 {
      if StartsRun(ts) {
        ThreeTiles(ts);
      }
      return [];
    }
    idx := [0];
    if ts[0].suit == Z {
      return [];
    }
    var i := 1;
    while i < |ts|
      invariant 1 <= i <= |ts| && 1 <= |idx| <= 2 && idx[0] == 0
      invariant forall n | 0 <= n < |idx| :: idx[n] < i && ts[idx[n]] == Shift(ts[0], n)
      invariant |idx| == 2 ==> 0 < idx[1]
      invariant forall k | 0 <= k < i :: ts[k].suit == ts[0].suit && ts[0].value <= ts[k].value < ts[0].value + |idx|
    {
      var last := ts[idx[|idx| - 1]];
      assert !Less(ts[i], last) && last in ts && ts[i] in ts;
      var diff := Diff32(ts[i].value, last.value);
      if ts[i].suit != ts[0].suit || diff > 1 {
        NothingFurther(ts, i, |idx|);
        return [];
      }
      if diff == 1 {
        idx := idx + [i];
        if |idx| == 3 {
          return;
        }
      }
      i := i + 1;
    }
    return [];
  }

  method Merge(x: Result, xs: seq<Result>) returns (rs: seq<Result>)
    ensures rs == Merged(x, xs)
  {
    rs := [];
    var i := 0;
    while i < |xs|
      invariant 0 <= i <= |xs| && |rs| == i
      invariant forall k | 0 <= k < i :: rs[k] == Join(x, xs[k])
    {
      var v := xs[i];
      rs := rs + [Result(v.seqs + x.seqs, v.twos + x.twos, v.threes + x.threes, v.left)];
      i := i + 1;
    }
  }

  /** Splits what is left after one group and adds that group to every outcome. */
  method SubSplit(seqs: seq<Tile>, twos: seq<Tile>, threes: seq<Tile>, left: seq<Tile>) returns (rs: seq<Result>)
    requires Sorted(left) && Typed(left)
    ensures rs == Merged(Result(seqs, twos, threes, []), Splits(left))
    decreases |left|, 4
  {
    var r := Result(seqs, twos, threes, left);
    var results := Split(left);
    rs := Merge(r, results);
    assert Merged(r, results) == Merged(r.(left := []), results);
  }

  // ----- sorted sequences

  lemma Cancel(once: multiset<Tile>, cut: multiset<Tile>, without: multiset<Tile>, t: Tile, u: Tile)
    requires once == cut + multiset{u} && once + multiset{t} == without + multiset{u} + multiset{t}
    ensures cut == without
  {
    forall x ensures cut[x] == without[x] {
      assert (once + multiset{t})[x] == (without + multiset{u} + multiset{t})[x];
    }
  }

  function CutAt(ts: seq<Tile>, i: nat): seq<Tile>
    requires i < |ts|
  {
    ts[..i] + ts[i + 1..]
  }

  lemma CutShape(ts: seq<Tile>, i: nat, j: nat)
    requires 0 < i < j < |ts|
    ensures CutAt(CutAt(ts[1..], i - 1), j - 2) == if j == 2 then ts[3..] else ts[1..i] + ts[i + 1..j] + ts[j + 1..]
  {
    var rest := ts[1..];
    var once := CutAt(rest, i - 1);
    assert rest[..i - 1] == ts[1..i] && rest[i..] == ts[i + 1..];
    assert once[..j - 2] == ts[1..i] + ts[i + 1..j];
    assert once[j - 1..] == ts[j + 1..];
  }

  /** Cutting one tile out of a sorted sequence. */
  lemma CutOut(ts: seq<Tile>, i: nat)
    requires i < |ts|
    ensures multiset(ts) == multiset(CutAt(ts, i)) + multiset{ts[i]}
    ensures Sorted(ts) ==> Sorted(CutAt(ts, i))
  {
    assert ts == ts[..i] + [ts[i]] + ts[i + 1..];
  }

  lemma RemoveFirstTiles(ts: seq<Tile>, t: Tile)
    requires t in ts
    ensures multiset(ts) == multiset(RemoveFirst(ts, t)) + multiset{t}
    ensures Sorted(ts) ==> Sorted(RemoveFirst(ts, t))
    ensures forall u | u in RemoveFirst(ts, t) :: u in ts
  {
    assert ts == [ts[0]] + ts[1..];
    if ts[0] != t {
      RemoveFirstTiles(ts[1..], t);
      var rest := RemoveFirst(ts[1..], t);
      if Sorted(ts) {
        forall k | 0 <= k < |rest| ensures !Less(rest[k], ts[0]) {
          assert rest[k] in ts[1..];
        }
      }
    }
  }

  lemma StillIn(ts: seq<Tile>, t: Tile, u: Tile)
    requires u in ts && u != t
    ensures u in RemoveFirst(ts, t)
  {
    if ts[0] != t && ts[0] != u {
      StillIn(ts[1..], t, u);
    }
  }

  lemma WithoutRunTiles(ts: seq<Tile>)
    requires ts != [] && Shift(ts[0], 1) in ts && Shift(ts[0], 2) in ts
    ensures multiset(ts[1..]) == multiset(WithoutRun(ts)) + multiset{Shift(ts[0], 2)} + multiset{Shift(ts[0], 1)}
    ensures Sorted(ts) ==> Sorted(WithoutRun(ts))
    ensures forall u | u in WithoutRun(ts) :: u in ts
  {
    var b, c := Shift(ts[0], 1), Shift(ts[0], 2);
    var rest := ts[1..];
    assert ts == [ts[0]] + rest;
    assert b in rest && c in rest;
    RemoveFirstTiles(rest, b);
    StillIn(rest, b, c);
    RemoveFirstTiles(RemoveFirst(rest, b), c);
  }

  /** Sorted sequences with the same tiles are equal. */
  lemma {:induction false} SortedUnique(a: seq<Tile>, b: seq<Tile>)
    requires Sorted(a) && Sorted(b) && multiset(a) == multiset(b)
    ensures a == b
  {
    if a == [] {
      assert |multiset(a)| == |multiset(b)|;
    } else {
      assert |multiset(a)| == |a| && |multiset(b)| == |b|;
      assert a[0] in multiset(b) && b[0] in multiset(a);
      assert !Less(a[0], b[0]) && !Less(b[0], a[0]) by {
        assert a[0] in b && b[0] in a;
      }
      assert a == [a[0]] + a[1..] && b == [b[0]] + b[1..];
      assert multiset(a[1..]) == multiset(a) - multiset{a[0]};
      assert multiset(b[1..]) == multiset(b) - multiset{b[0]};
      SortedUnique(a[1..], b[1..]);
    }
  }

  lemma TailSorted(ts: seq<Tile>)
    requires Sorted(ts) && ts != []
    ensures Sorted(ts[1..])
  {
  }

  lemma CutSorted(ts: seq<Tile>, i: nat, j: nat)
    requires Sorted(ts) && 0 < i < j < |ts|
    ensures Sorted(CutAt(CutAt(ts[1..], i - 1), j - 2))
  {
    TailSorted(ts);
    CutOut(ts[1..], i - 1);
    CutOut(CutAt(ts[1..], i - 1), j - 2);
  }

  lemma CutFirst(ts: seq<Tile>, i: nat)
    requires 0 < i < |ts|
    ensures multiset(ts[1..]) == multiset(CutAt(ts[1..], i - 1)) + multiset{ts[i]}
  {
    assert ts[1..][i - 1] == ts[i];
    CutOut(ts[1..], i - 1);
  }

  lemma CutSecond(ts: seq<Tile>, i: nat, j: nat)
    requires 0 < i < j < |ts|
    ensures var once := CutAt(ts[1..], i - 1); multiset(once) == multiset(CutAt(once, j - 2)) + multiset{ts[j]}
  {
    var once := CutAt(ts[1..], i - 1);
    assert once[j - 2] == ts[j];
    CutOut(once, j - 2);
  }

  /** Cutting the run out at the positions found removes exactly the three tiles, and the
      rest stays sorted. */
  lemma RunRemoved(ts: seq<Tile>, i: nat, j: nat)
    requires Sorted(ts) && 0 < i < j < |ts|
    requires ts[i] == Shift(ts[0], 1) && ts[j] == Shift(ts[0], 2)
    ensures (if j == 2 then ts[3..] else ts[1..i] + ts[i + 1..j] + ts[j + 1..]) == WithoutRun(ts)
    ensures Sorted(WithoutRun(ts)) && forall t | t in WithoutRun(ts) :: t in ts
  {
    var once := CutAt(ts[1..], i - 1);
    var cut := CutAt(once, j - 2);
    CutFirst(ts, i);
    CutSecond(ts, i, j);
    CutSorted(ts, i, j);
    CutShape(ts, i, j);
    WithoutRunTiles(ts);
    Cancel(multiset(once), multiset(cut), multiset(WithoutRun(ts)), ts[i], ts[j]);
    SortedUnique(cut, WithoutRun(ts));
  }

  /** What remains of the hand once the run at positions `idx` is taken. */
  method RunLeft(ts: seq<Tile>, idx: seq<nat>) returns (left: seq<Tile>)
    requires Sorted(ts) && Typed(ts)
    requires |idx| == 3 && 0 == idx[0] < idx[1] < idx[2] < |ts|
    requires ts[idx[1]] == Shift(ts[0], 1) && ts[idx[2]] == Shift(ts[0], 2)
    ensures left == WithoutRun(ts) && Sorted(left) && Typed(left)
  {
    RunRemoved(ts, idx[1], idx[2]);
    if idx[2] == 2 {
      left := ts[3..];
    } else {
      left := ts[idx[0] + 1..idx[1]] + ts[idx[1] + 1..idx[2]] + ts[idx[2] + 1..];
    }
  }

  // ----- all outcomes

  lemma Suffix(ts: seq<Tile>, n: nat)
    requires Sorted(ts) && Typed(ts) && n <= |ts|
    ensures Sorted(ts[n..]) && Typed(ts[n..])
  {
  }

  method Split(ts: seq<Tile>) returns (results: seq<Result>)
    requires Sorted(ts) && Typed(ts)
    ensures results == Splits(ts)
    decreases |ts|, 3
  {
    var branches := 0;
    var runs, triplets, pairs := [], [], [];
    var idx := FindSeq(ts);
    if idx != [] {
      branches := branches + 1;
      var left := RunLeft(ts, idx);
      runs := SubSplit(ts[..1], [], [], left);
    }
    assert ts != [] ==> ts[..1] == [ts[0]];
    assert runs == RunSplits(ts);
    var hit := false;
    if |ts| >= 3 && ts[0] == ts[1] && ts[1] == ts[2] {
      hit := true;
      branches := branches + 1;
      Suffix(ts, 3);
      triplets := SubSplit([], [], [ts[0]], ts[3..]);
    }
    assert triplets == TripletSplits(ts);
    if hit || (|ts| >= 2 && ts[0] == ts[1]) {
      branches := branches + 1;
      Suffix(ts, 2);
      pairs := SubSplit([], [ts[0]], [], ts[2..]);
    }
    assert pairs == PairSplits(ts);
    if branches > 0 {
      results := runs + triplets + pairs;
    } else {
      results := [Result([], [], [], ts)];
    }
  }
}
