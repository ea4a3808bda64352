/** What the splitter's outcomes are: each one conserves the tiles of the hand, and every
    way to group the whole hand is among them. */
module SplitTheorems {
  import opened Tiles
  import opened Splitter

  /** The groups of `r` and what it left over add up to the hand, tile by tile. */
  ghost predicate Conserves(r: Result, hand: multiset<Tile>) {
    && (forall t | t in multiset(r.seqs) :: t.suit != Z)
    && (forall t {:trigger Uses(PartitionOf(r), t)} :: hand[t] == Uses(PartitionOf(r), t) + multiset(r.left)[t])
  }

  /** The lowest tile starts no run, pair or triplet. */
  predicate Stuck(ts: seq<Tile>) {
    !StartsRun(ts) && !StartsPair(ts)
  }

  lemma JoinUses(x: Result, r: Result, t: Tile)
    ensures Uses(PartitionOf(Join(x, r)), t) == Uses(PartitionOf(r), t) + Uses(PartitionOf(x), t)
  {
  }

  lemma SingleUses(t: Tile, u: Tile)
    ensures Uses(PartitionOf(Run(t)), u) == if InRun(t, u) then 1 else 0
    ensures Uses(PartitionOf(Pair(t)), u) == if u == t then 2 else 0
    ensures Uses(PartitionOf(Triplet(t)), u) == if u == t then 3 else 0
  {
    assert Shift(u, -1) == t <==> u == Shift(t, 1);
    assert Shift(u, -2) == t <==> u == Shift(t, 2);
  }

  lemma FirstTiles(ts: seq<Tile>, n: nat, u: Tile)
    requires n <= |ts| && forall i | 0 <= i < n :: ts[i] == ts[0]
    ensures n > 0 ==> multiset(ts)[u] == multiset(ts[n..])[u] + if u == ts[0] then n else 0
    decreases n
  {
    if n > 0 {
      FirstTiles(ts, n - 1, u);
      assert ts[n - 1..] == [ts[n - 1]] + ts[n..];
      assert n == 1 ==> ts[0..] == ts;
    }
  }

  /** The tiles of a group at the front, and the rest, make up the hand. */
  lemma TripletTaken(ts: seq<Tile>, u: Tile)
    requires StartsTriplet(ts)
    ensures multiset(ts)[u] == multiset(ts[3..])[u] + Uses(PartitionOf(Triplet(ts[0])), u)
  {
    FirstTiles(ts, 3, u);
    SingleUses(ts[0], u);
  }

  lemma PairTaken(ts: seq<Tile>, u: Tile)
    requires StartsPair(ts)
    ensures multiset(ts)[u] == multiset(ts[2..])[u] + Uses(PartitionOf(Pair(ts[0])), u)
  {
    FirstTiles(ts, 2, u);
    SingleUses(ts[0], u);
  }

  lemma RunFirstTiles(ts: seq<Tile>, u: Tile)
    requires StartsRun(ts)
    ensures multiset(ts)[u] == multiset(WithoutRun(ts))[u] + if InRun(ts[0], u) then 1 else 0
  {
    WithoutRunTiles(ts);
    assert ts == [ts[0]] + ts[1..];
    assert multiset(ts)[u] == multiset(ts[1..])[u] + if u == ts[0] then 1 else 0;
  }

  lemma RunTaken(ts: seq<Tile>, u: Tile)
    requires StartsRun(ts)
    ensures multiset(ts)[u] == multiset(WithoutRun(ts))[u] + Uses(PartitionOf(Run(ts[0])), u)
  {
    RunFirstTiles(ts, u);
    SingleUses(ts[0], u);
  }

  /** Adding the group that was taken to an outcome of the rest conserves the whole hand. */
  lemma JoinConserves(x: Result, r: Result, rest: multiset<Tile>, hand: multiset<Tile>)
    requires Conserves(r, rest)
    requires forall t | t in multiset(x.seqs) :: t.suit != Z
    requires forall u {:trigger Uses(PartitionOf(x), u)} :: hand[u] == rest[u] + Uses(PartitionOf(x), u)
    ensures Conserves(Join(x, r), hand)
  {
    forall t ensures hand[t] == Uses(PartitionOf(Join(x, r)), t) + multiset(Join(x, r).left)[t] {
      JoinUses(x, r, t);
    }
  }

  /** Every outcome conserves the tiles of the hand. What is left over is stuck: its lowest
      tile starts no run, pair or triplet. */
  lemma {:induction false} SplitsConserve(ts: seq<Tile>, r: Result)
    requires r in Splits(ts)
    ensures Conserves(r, multiset(ts))
    ensures !StartsRun(r.left) && !StartsPair(r.left)
    decreases |ts|, 1
  {
    if !StartsRun(ts) && !StartsPair(ts) {
      assert forall t :: Uses(PartitionOf(Result([], [], [], ts)), t) == 0;
    } else if r in RunSplits(ts) {
      RunConserves(ts, r);
    } else if r in TripletSplits(ts) {
      TripletConserves(ts, r);
    } else {
      PairConserves(ts, r);
    }
  }

  lemma {:induction false} RunConserves(ts: seq<Tile>, r: Result)
    requires r in RunSplits(ts)
    ensures Conserves(r, multiset(ts)) && !StartsRun(r.left) && !StartsPair(r.left)
    decreases |ts|, 0
  {
    var rest := WithoutRun(ts);
    var i :| 0 <= i < |Splits(rest)| && r == Join(Run(ts[0]), Splits(rest)[i]);
    var part := Splits(rest)[i];
    SplitsConserve(rest, part);
    forall u ensures multiset(ts)[u] == multiset(rest)[u] + Uses(PartitionOf(Run(ts[0])), u) {
      RunTaken(ts, u);
    }
    JoinConserves(Run(ts[0]), part, multiset(rest), multiset(ts));
  }

  lemma {:induction false} TripletConserves(ts: seq<Tile>, r: Result)
    requires r in TripletSplits(ts)
    ensures Conserves(r, multiset(ts)) && !StartsRun(r.left) && !StartsPair(r.left)
    decreases |ts|, 0
  {
    var rest := ts[3..];
    var i :| 0 <= i < |Splits(rest)| && r == Join(Triplet(ts[0]), Splits(rest)[i]);
    var part := Splits(rest)[i];
    SplitsConserve(rest, part);
    forall u ensures multiset(ts)[u] == multiset(rest)[u] + Uses(PartitionOf(Triplet(ts[0])), u) {
      TripletTaken(ts, u);
    }
    JoinConserves(Triplet(ts[0]), part, multiset(rest), multiset(ts));
  }

  lemma {:induction false} PairConserves(ts: seq<Tile>, r: Result)
    requires r in PairSplits(ts)
    ensures Conserves(r, multiset(ts)) && !StartsRun(r.left) && !StartsPair(r.left)
    decreases |ts|, 0
  {
    var rest := ts[2..];
    var i :| 0 <= i < |Splits(rest)| && r == Join(Pair(ts[0]), Splits(rest)[i]);
    var part := Splits(rest)[i];
    SplitsConserve(rest, part);
    forall u ensures multiset(ts)[u] == multiset(rest)[u] + Uses(PartitionOf(Pair(ts[0])), u) {
      PairTaken(ts, u);
    }
    JoinConserves(Pair(ts[0]), part, multiset(rest), multiset(ts));
  }

  // ----- completeness

  /** Some outcome has exactly the groups of `p` and the rest `left`. */
  ghost predicate Finds(ts: seq<Tile>, r: Result, p: Partition, left: seq<Tile>) {
    r in Splits(ts) && r.left == left && PartitionOf(r) == p
  }

  predicate IsGroup(p: Partition, t: Tile) {
    t in p.runs || t in p.pairs || t in p.triplets
  }

  /** The groups of `p` use up exactly what `left` leaves of the hand. */
  ghost predicate AddsUp(p: Partition, left: seq<Tile>, hand: multiset<Tile>) {
    multiset(left) <= hand && IsPartition(p, hand - multiset(left))
  }

  /** No group starts above the lowest tile that is left. */
  ghost predicate NoneAbove(p: Partition, left: seq<Tile>) {
    left != [] ==> forall t | IsGroup(p, t) :: !Less(left[0], t)
  }

  lemma NotBelow(ts: seq<Tile>, u: Tile)
    requires Sorted(ts) && ts != [] && Less(u, ts[0])
    ensures u !in multiset(ts)
  {
    forall i | 0 <= i < |ts| ensures ts[i] != u {
      assert i > 0 ==> !Less(ts[i], ts[0]);
    }
  }

  lemma GroupInHand(p: Partition, hand: multiset<Tile>, t: Tile)
    requires IsPartition(p, hand) && IsGroup(p, t)
    ensures t in hand && Uses(p, t) > 0
  {
    assert hand[t] == Uses(p, t);
  }

  /** A tile of the rest that is lowest in the hand is not above a group only if that starts
      there. */
  lemma LowestIsLeft(ts: seq<Tile>, left: seq<Tile>, u: Tile)
    requires Sorted(ts) && ts != [] && Sorted(left) && multiset(left) <= multiset(ts)
    requires ts[0] in multiset(left) && u in multiset(ts) && !Less(left[0], u)
    ensures u == ts[0]
  {
    var t := ts[0];
    assert left[0] in multiset(left);
    if Less(t, left[0]) {
      NotBelow(left, t);
    }
    if Less(left[0], t) {
      NotBelow(ts, left[0]);
    }
    if Less(u, t) {
      NotBelow(ts, u);
    }
  }

  /** The lowest tile of a sorted hand is the start of a group, if there are groups at all: one
      of the rest is no lower than every group. */
  lemma LowestGroup(ts: seq<Tile>, p: Partition, left: seq<Tile>, u: Tile)
    requires Sorted(ts) && ts != [] && Sorted(left) && AddsUp(p, left, multiset(ts)) && NoneAbove(p, left)
    requires IsGroup(p, u)
    ensures IsGroup(p, ts[0])
  {
    var t, hand := ts[0], multiset(ts) - multiset(left);
    GroupInHand(p, hand, u);
    assert u in multiset(ts) && t in multiset(ts);
    assert hand[t] == Uses(p, t);
    if Shift(t, -1) in p.runs {
      TakeRun(p, hand, Shift(t, -1));
      NotBelow(ts, Shift(t, -1));
    } else if Shift(t, -2) in p.runs {
      TakeRun(p, hand, Shift(t, -2));
      NotBelow(ts, Shift(t, -2));
    } else if Uses(p, t) == 0 {
      LowestIsLeft(ts, left, u);
    }
  }

  /** Equal tiles stand together at the front of a sorted hand. */
  lemma {:induction false} FrontCopies(ts: seq<Tile>, t: Tile, n: nat)
    requires Sorted(ts) && ts != [] && !Less(t, ts[0]) && !Less(ts[0], t) && multiset(ts)[t] >= n
    ensures n <= |ts| && forall i | 0 <= i < n :: ts[i] == t
    decreases n
  {
    if n > 1 {
      assert ts == [ts[0]] + ts[1..];
      assert multiset(ts[1..])[t] >= n - 1;
      assert t in multiset(ts[1..]);
      if Less(t, ts[1]) {
        NotBelow(ts[1..], t);
      }
      assert !Less(ts[1], ts[0]);
      FrontCopies(ts[1..], t, n - 1);
      assert forall i | 1 <= i < n :: ts[i] == ts[1..][i - 1];
    }
  }

  /** Copies of the lowest tile are taken from the front. */
  lemma FrontRemoved(ts: seq<Tile>, n: nat)
    requires Sorted(ts) && ts != [] && 0 < n <= multiset(ts)[ts[0]]
    ensures n <= |ts| && (forall i | 0 <= i < n :: ts[i] == ts[0])
    ensures multiset(ts[n..]) == Drop(multiset(ts), ts[0], n) && Sorted(ts[n..])
  {
    FrontCopies(ts, ts[0], n);
    forall u ensures multiset(ts[n..])[u] == Drop(multiset(ts), ts[0], n)[u] { FirstTiles(ts, n, u); }
  }

  /** So are the tiles of a run. */
  lemma RunRemovedTiles(ts: seq<Tile>)
    requires StartsRun(ts) && Sorted(ts)
    requires multiset(ts)[Shift(ts[0], 1)] >= 1 && multiset(ts)[Shift(ts[0], 2)] >= 1
    ensures multiset(WithoutRun(ts)) == DropRun(multiset(ts), ts[0]) && Sorted(WithoutRun(ts))
  {
    WithoutRunTiles(ts);
    assert ts[0] in multiset(ts);
    forall u ensures multiset(WithoutRun(ts))[u] == DropRun(multiset(ts), ts[0])[u] {
      RunFirstTiles(ts, u);
      DropRunAt(multiset(ts), ts[0], u);
    }
  }

  lemma PutBack(m: multiset<Tile>, t: Tile)
    requires t in m
    ensures Drop(m, t, 1) + multiset{t} == m
  {
    forall u ensures (Drop(m, t, 1) + multiset{t})[u] == m[u] {}
  }

  lemma JoinPartition(x: Result, r: Result)
    ensures PartitionOf(Join(x, r)) == Partition(
      PartitionOf(r).runs + multiset(x.seqs), PartitionOf(r).pairs + multiset(x.twos),
      PartitionOf(r).triplets + multiset(x.threes))
  {
  }

  lemma DropLeft(hand: multiset<Tile>, left: seq<Tile>, t: Tile, n: nat)
    requires multiset(left) <= hand && (hand - multiset(left))[t] >= n
    ensures multiset(left) <= Drop(hand, t, n)
    ensures Drop(hand, t, n) - multiset(left) == Drop(hand - multiset(left), t, n)
  {
    forall u ensures (Drop(hand, t, n) - multiset(left))[u] == Drop(hand - multiset(left), t, n)[u] {}
  }

  lemma DropRunLeft(hand: multiset<Tile>, left: seq<Tile>, t: Tile)
    requires multiset(left) <= hand
    requires var m := hand - multiset(left); m[t] >= 1 && m[Shift(t, 1)] >= 1 && m[Shift(t, 2)] >= 1
    ensures multiset(left) <= DropRun(hand, t) && DropRun(hand, t) - multiset(left) == DropRun(hand - multiset(left), t)
  {
    DropLeft(hand, left, t, 1);
    DropLeft(Drop(hand, t, 1), left, Shift(t, 1), 1);
    DropLeft(Drop(Drop(hand, t, 1), Shift(t, 1), 1), left, Shift(t, 2), 1);
  }

  function LessTriplet(p: Partition, t: Tile): Partition { p.(triplets := Drop(p.triplets, t, 1)) }
  function LessPair(p: Partition, t: Tile): Partition { p.(pairs := Drop(p.pairs, t, 1)) }
  function LessRun(p: Partition, t: Tile): Partition { p.(runs := Drop(p.runs, t, 1)) }

  /** Taking a group of `p` from the front leaves the other groups and the same rest. */
  lemma TripletRest(ts: seq<Tile>, p: Partition, left: seq<Tile>)
    requires Sorted(ts) && ts != [] && ts[0] in p.triplets && AddsUp(p, left, multiset(ts)) && NoneAbove(p, left)
    ensures StartsTriplet(ts) && Sorted(ts[3..])
    ensures AddsUp(LessTriplet(p, ts[0]), left, multiset(ts[3..])) && NoneAbove(LessTriplet(p, ts[0]), left)
  {
    TakeTriplet(p, multiset(ts) - multiset(left), ts[0]);
    DropLeft(multiset(ts), left, ts[0], 3);
    FrontRemoved(ts, 3);
  }

  lemma PairRest(ts: seq<Tile>, p: Partition, left: seq<Tile>)
    requires Sorted(ts) && ts != [] && ts[0] in p.pairs && AddsUp(p, left, multiset(ts)) && NoneAbove(p, left)
    ensures StartsPair(ts) && Sorted(ts[2..])
    ensures AddsUp(LessPair(p, ts[0]), left, multiset(ts[2..])) && NoneAbove(LessPair(p, ts[0]), left)
  {
    TakePair(p, multiset(ts) - multiset(left), ts[0]);
    DropLeft(multiset(ts), left, ts[0], 2);
    FrontRemoved(ts, 2);
  }

  lemma RunRest(ts: seq<Tile>, p: Partition, left: seq<Tile>)
    requires Sorted(ts) && ts != [] && ts[0] in p.runs && AddsUp(p, left, multiset(ts)) && NoneAbove(p, left)
    ensures StartsRun(ts) && Sorted(WithoutRun(ts))
    ensures AddsUp(LessRun(p, ts[0]), left, multiset(WithoutRun(ts))) && NoneAbove(LessRun(p, ts[0]), left)
  {
    TakeRun(p, multiset(ts) - multiset(left), ts[0]);
    DropRunLeft(multiset(ts), left, ts[0]);
    assert StartsRun(ts) by {
      assert Shift(ts[0], 1) in multiset(ts) && Shift(ts[0], 2) in multiset(ts);
    }
    RunRemovedTiles(ts);
  }

  /** An outcome of the rest, with the group that was taken, is an outcome of the hand. */
  lemma TripletFound(ts: seq<Tile>, r: Result, p: Partition, left: seq<Tile>)
    requires StartsTriplet(ts) && ts[0] in p.triplets && Finds(ts[3..], r, LessTriplet(p, ts[0]), left)
    ensures Finds(ts, Join(Triplet(ts[0]), r), p, left)
  {
    PutBack(p.triplets, ts[0]);
    JoinPartition(Triplet(ts[0]), r);
    var i :| 0 <= i < |Splits(ts[3..])| && Splits(ts[3..])[i] == r;
    assert TripletSplits(ts)[i] == Join(Triplet(ts[0]), r);
  }

  lemma PairFound(ts: seq<Tile>, r: Result, p: Partition, left: seq<Tile>)
    requires StartsPair(ts) && ts[0] in p.pairs && Finds(ts[2..], r, LessPair(p, ts[0]), left)
    ensures Finds(ts, Join(Pair(ts[0]), r), p, left)
  {
    PutBack(p.pairs, ts[0]);
    JoinPartition(Pair(ts[0]), r);
    var i :| 0 <= i < |Splits(ts[2..])| && Splits(ts[2..])[i] == r;
    assert PairSplits(ts)[i] == Join(Pair(ts[0]), r);
  }

  lemma RunFound(ts: seq<Tile>, r: Result, p: Partition, left: seq<Tile>)
    requires StartsRun(ts) && ts[0] in p.runs && Finds(WithoutRun(ts), r, LessRun(p, ts[0]), left)
    ensures Finds(ts, Join(Run(ts[0]), r), p, left)
  {
    PutBack(p.runs, ts[0]);
    JoinPartition(Run(ts[0]), r);
    var i :| 0 <= i < |Splits(WithoutRun(ts))| && Splits(WithoutRun(ts))[i] == r;
    assert RunSplits(ts)[i] == Join(Run(ts[0]), r);
  }

  lemma NothingGrouped(ts: seq<Tile>, p: Partition, left: seq<Tile>)
    requires Sorted(ts) && Sorted(left) && AddsUp(p, left, multiset(ts)) && forall t :: !IsGroup(p, t)
    ensures ts == left && p == Partition(multiset{}, multiset{}, multiset{})
  {
    forall t ensures t !in p.runs && t !in p.pairs && t !in p.triplets {
      assert !IsGroup(p, t);
    }
    assert p.runs == multiset{} && p.pairs == multiset{} && p.triplets == multiset{};
    forall t ensures multiset(ts)[t] == multiset(left)[t] {
      assert (multiset(ts) - multiset(left))[t] == Uses(p, t);
    }
    SortedUnique(ts, left);
  }

  /** Every choice of groups and rest that the algorithm can reach is an outcome: the groups and
      the rest add up to the hand, the rest is sorted and stuck, and no group starts above it. */
  lemma {:induction false} SplitsComplete(ts: seq<Tile>, p: Partition, left: seq<Tile>) returns (r: Result)
    requires Sorted(ts) && Sorted(left) && Stuck(left) && AddsUp(p, left, multiset(ts)) && NoneAbove(p, left)
    ensures Finds(ts, r, p, left)
    decreases |ts|
  {
    if u :| IsGroup(p, u) {
      GroupInHand(p, multiset(ts) - multiset(left), u);
      LowestGroup(ts, p, left, u);
      if ts[0] in p.triplets {
        TripletRest(ts, p, left);
        r := SplitsComplete(ts[3..], LessTriplet(p, ts[0]), left);
        TripletFound(ts, r, p, left);
        r := Join(Triplet(ts[0]), r);
      } else if ts[0] in p.pairs {
        PairRest(ts, p, left);
        r := SplitsComplete(ts[2..], LessPair(p, ts[0]), left);
        PairFound(ts, r, p, left);
        r := Join(Pair(ts[0]), r);
      } else {
        RunRest(ts, p, left);
        r := SplitsComplete(WithoutRun(ts), LessRun(p, ts[0]), left);
        RunFound(ts, r, p, left);
        r := Join(Run(ts[0]), r);
      }
    } else {
      NothingGrouped(ts, p, left);
      r := Result([], [], [], ts);
    }
  }

  /** In particular every partition of the whole hand is found. */
  lemma PartitionFound(ts: seq<Tile>, p: Partition) returns (r: Result)
    requires Sorted(ts) && IsPartition(p, multiset(ts))
    ensures Finds(ts, r, p, [])
  {
    assert multiset(ts) - multiset([]) == multiset(ts);
    r := SplitsComplete(ts, p, []);
  }

  // ----- the outcomes, exactly

  lemma MergedPart(x: Result, rs: seq<Result>, r: Result) returns (part: Result)
    requires r in Merged(x, rs)
    ensures part in rs && r == Join(x, part)
  {
    var i :| 0 <= i < |rs| && r == Merged(x, rs)[i];
    part := rs[i];
  }

  /** The group at the lowest tile that led to an outcome, and what remained. */
  lemma TakenGroup(ts: seq<Tile>, r: Result) returns (x: Result, rest: seq<Tile>, part: Result)
    requires Sorted(ts) && r in Splits(ts) && !Stuck(ts)
    ensures x in {Run(ts[0]), Pair(ts[0]), Triplet(ts[0])} && part in Splits(rest) && r == Join(x, part)
    ensures Sorted(rest) && |rest| < |ts|
  {
    if r in RunSplits(ts) {
      x, rest := Run(ts[0]), WithoutRun(ts);
      WithoutRunTiles(ts);
    } else if r in TripletSplits(ts) {
      x, rest := Triplet(ts[0]), ts[3..];
    } else {
      x, rest := Pair(ts[0]), ts[2..];
    }
    part := MergedPart(x, Splits(rest), r);
  }

  lemma LeftNotBelow(ts: seq<Tile>, r: Result)
    requires Sorted(ts) && ts != [] && r in Splits(ts) && r.left != []
    ensures !Less(r.left[0], ts[0])
  {
    SplitsConserve(ts, r);
    assert multiset(ts)[r.left[0]] == Uses(PartitionOf(r), r.left[0]) + multiset(r.left)[r.left[0]];
    assert r.left[0] in multiset(r.left);
    if Less(r.left[0], ts[0]) {
      NotBelow(ts, r.left[0]);
    }
  }

  lemma GroupOfJoin(x: Result, r: Result, t: Tile, u: Tile)
    requires x in {Run(t), Pair(t), Triplet(t)} && IsGroup(PartitionOf(Join(x, r)), u)
    ensures u == t || IsGroup(PartitionOf(r), u)
  {
  }

  /** What is left is sorted, and no group starts above it. */
  lemma {:induction false} SplitsOrdered(ts: seq<Tile>, r: Result)
    requires Sorted(ts) && r in Splits(ts)
    ensures Sorted(r.left) && NoneAbove(PartitionOf(r), r.left)
    decreases |ts|
  {
    if !Stuck(ts) {
      var x, rest, part := TakenGroup(ts, r);
      SplitsOrdered(rest, part);
      if r.left != [] {
        forall u | IsGroup(PartitionOf(r), u) ensures !Less(r.left[0], u) {
          GroupOfJoin(x, part, ts[0], u);
          LeftNotBelow(ts, r);
        }
      }
    }
  }

  lemma ConservedAddsUp(r: Result, hand: multiset<Tile>)
    requires Conserves(r, hand)
    ensures AddsUp(PartitionOf(r), r.left, hand)
  {
    var p := PartitionOf(r);
    forall t ensures multiset(r.left)[t] <= hand[t] && (hand - multiset(r.left))[t] == Uses(p, t) {
      assert hand[t] == Uses(p, t) + multiset(r.left)[t];
    }
  }

  /** Exactly these are outcomes, finished or stuck: the groups and what is left add up to the
      sorted hand, what is left is sorted and stuck, and no group starts above it. */
  lemma OutcomesExact(ts: seq<Tile>, p: Partition, left: seq<Tile>)
    requires Sorted(ts)
    ensures (exists r :: Finds(ts, r, p, left)) <==>
      Sorted(left) && Stuck(left) && AddsUp(p, left, multiset(ts)) && NoneAbove(p, left)
  {
    if Sorted(left) && Stuck(left) && AddsUp(p, left, multiset(ts)) && NoneAbove(p, left) {
      var r := SplitsComplete(ts, p, left);
    }
    if r :| Finds(ts, r, p, left) {
      SplitsConserve(ts, r);
      SplitsOrdered(ts, r);
      ConservedAddsUp(r, multiset(ts));
    }
  }

  /** The outcomes with nothing left over are exactly the partitions of the hand. */
  lemma SplitsExact(ts: seq<Tile>, p: Partition)
    requires Sorted(ts)
    ensures IsPartition(p, multiset(ts)) <==> exists r :: Finds(ts, r, p, [])
  {
    assert multiset(ts) - multiset([]) == multiset(ts);
    OutcomesExact(ts, p, []);
  }

  /** Every hand has an outcome. */
  lemma {:induction false} SplitsNotEmpty(ts: seq<Tile>)
    ensures Splits(ts) != []
    decreases |ts|
  {
    if StartsRun(ts) {
      SplitsNotEmpty(WithoutRun(ts));
    } else if StartsPair(ts) {
      SplitsNotEmpty(ts[2..]);
    }
  }
}
