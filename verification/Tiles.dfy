/** Mahjong tiles, the order hands are kept in, and what it means for a hand to be
    split into runs, pairs and triplets. Every analyser in this project is proved
    against the two predicates at the end of this module, `IsPartition` and `Wins`. */
module Tiles {

  /** The suits: three numbered suits and the honours, which form no runs. */
  const W := 1
  const T := 2
  const S := 3
  const Z := 4

  datatype Tile = Tile(suit: int, value: int)

  /** The tiles the count table accepts. */
  predicate ValidTile(t: Tile) {
    || (W <= t.suit <= S && 1 <= t.value <= 9)
    || (t.suit == Z && 1 <= t.value <= 7)
  }

  predicate ValidTiles(ts: seq<Tile>) {
    forall t | t in ts :: ValidTile(t)
  }

  predicate Less(a: Tile, b: Tile) {
    if a.suit != b.suit then a.suit < b.suit else a.value < b.value
  }

  predicate Sorted(ts: seq<Tile>) {
    forall i, j {:trigger Less(ts[j], ts[i])} | 0 <= i < j < |ts| :: !Less(ts[j], ts[i])
  }

  /** The tile `n` places further in the same suit. */
  function Shift(t: Tile, n: int): Tile {
    Tile(t.suit, t.value + n)
  }

  /** A choice of groups: each run is named by its lowest tile. */
  datatype Partition = Partition(runs: multiset<Tile>, pairs: multiset<Tile>, triplets: multiset<Tile>)

  /** How many copies of tile `t` the groups of `p` use up. */
  function Uses(p: Partition, t: Tile): nat {
    3 * p.triplets[t] + 2 * p.pairs[t] + p.runs[t] + p.runs[Shift(t, -1)] + p.runs[Shift(t, -2)]
  }

  /** `p` uses every tile of `hand` exactly as often as it occurs, and nothing else. */
  ghost predicate IsPartition(p: Partition, hand: multiset<Tile>) {
    && (forall t | t in p.runs :: t.suit != Z)
    && (forall t {:trigger Uses(p, t)} :: hand[t] == Uses(p, t))
  }

  /** The winning shape: any number of runs and triplets, and exactly one pair. */
  ghost predicate Wins(hand: multiset<Tile>) {
    exists p :: IsPartition(p, hand) && |p.pairs| == 1
  }

  /** `m` with `n` copies of `t` taken out. */
  function Drop(m: multiset<Tile>, t: Tile, n: nat): multiset<Tile> {
    m[t := if n <= m[t] then m[t] - n else 0]
  }

  function DropRun(m: multiset<Tile>, t: Tile): multiset<Tile> {
    Drop(Drop(Drop(m, t, 1), Shift(t, 1), 1), Shift(t, 2), 1)
  }

  /** Taking one triplet, pair or run out of a partition leaves a partition of the
      remaining tiles. */
  lemma TakeTriplet(p: Partition, hand: multiset<Tile>, t: Tile)
    requires IsPartition(p, hand) && t in p.triplets
    ensures hand[t] >= 3
    ensures IsPartition(p.(triplets := Drop(p.triplets, t, 1)), Drop(hand, t, 3))
  {
    var q := p.(triplets := Drop(p.triplets, t, 1));
    assert hand[t] == Uses(p, t);
    forall u ensures Drop(hand, t, 3)[u] == Uses(q, u) {
      assert hand[u] == Uses(p, u);
    }
  }

  lemma TakePair(p: Partition, hand: multiset<Tile>, t: Tile)
    requires IsPartition(p, hand) && t in p.pairs
    ensures hand[t] >= 2
    ensures IsPartition(p.(pairs := Drop(p.pairs, t, 1)), Drop(hand, t, 2))
  {
    var q := p.(pairs := Drop(p.pairs, t, 1));
    assert hand[t] == Uses(p, t);
    forall u ensures Drop(hand, t, 2)[u] == Uses(q, u) {
      assert hand[u] == Uses(p, u);
    }
  }

  lemma UsesAt(p: Partition, hand: multiset<Tile>, t: Tile, n: int)
    requires IsPartition(p, hand)
    ensures hand[Shift(t, n)] ==
      3 * p.triplets[Shift(t, n)] + 2 * p.pairs[Shift(t, n)] +
      p.runs[Shift(t, n)] + p.runs[Shift(t, n - 1)] + p.runs[Shift(t, n - 2)]
  {
    assert hand[Shift(t, n)] == Uses(p, Shift(t, n));
  }

  predicate InRun(t: Tile, u: Tile) {
    u.suit == t.suit && t.value <= u.value <= t.value + 2
  }

  lemma DropRunAt(m: multiset<Tile>, t: Tile, u: Tile)
    requires m[t] >= 1 && m[Shift(t, 1)] >= 1 && m[Shift(t, 2)] >= 1
    ensures DropRun(m, t)[u] + (if InRun(t, u) then 1 else 0) == m[u]
  {
  }

  lemma DropRunUses(p: Partition, t: Tile, u: Tile)
    requires t in p.runs
    ensures Uses(p.(runs := Drop(p.runs, t, 1)), u) + (if InRun(t, u) then 1 else 0) == Uses(p, u)
  {
    assert Shift(u, -1) == t <==> u == Shift(t, 1);
    assert Shift(u, -2) == t <==> u == Shift(t, 2);
  }

  lemma TakeRun(p: Partition, hand: multiset<Tile>, t: Tile)
    requires IsPartition(p, hand) && t in p.runs
    ensures hand[t] >= 1 && hand[Shift(t, 1)] >= 1 && hand[Shift(t, 2)] >= 1
    ensures IsPartition(p.(runs := Drop(p.runs, t, 1)), DropRun(hand, t))
  {
    var q := p.(runs := Drop(p.runs, t, 1));
    UsesAt(p, hand, t, 0);
    UsesAt(p, hand, t, 1);
    UsesAt(p, hand, t, 2);
    forall u ensures DropRun(hand, t)[u] == Uses(q, u) {
      DropRunAt(hand, t, u);
      assert hand[u] == Uses(p, u);
      DropRunUses(p, t, u);
    }
  }

  /** A partition accounts for the size of the hand: 3 tiles a run or triplet, 2 a pair. */
  lemma {:induction false} PartitionSize(p: Partition, hand: multiset<Tile>)
    requires IsPartition(p, hand)
    ensures |hand| == 3 * |p.runs| + 2 * |p.pairs| + 3 * |p.triplets|
    decreases |p.runs| + |p.pairs| + |p.triplets|
  {
    if t :| t in p.triplets {
      TakeTriplet(p, hand, t);
      PartitionSize(p.(triplets := Drop(p.triplets, t, 1)), Drop(hand, t, 3));
    } else if t :| t in p.pairs {
      TakePair(p, hand, t);
      PartitionSize(p.(pairs := Drop(p.pairs, t, 1)), Drop(hand, t, 2));
    } else if t :| t in p.runs {
      TakeRun(p, hand, t);
      PartitionSize(p.(runs := Drop(p.runs, t, 1)), DropRun(hand, t));
    } else {
      assert p.runs == p.pairs == p.triplets == multiset{};
      forall t ensures hand[t] == 0 {
        assert hand[t] == Uses(p, t);
      }
      assert hand == multiset{};
    }
  }

  /** Winning hands have 3n + 2 tiles. */
  lemma WinningSize(hand: multiset<Tile>)
    requires Wins(hand)
    ensures |hand| % 3 == 2
  {
    var p :| IsPartition(p, hand) && |p.pairs| == 1;
    PartitionSize(p, hand);
  }

  /** How many tiles of suit `s` have a value from 1 to `n`. */
  function SuitPrefix(hand: multiset<Tile>, s: int, n: int): nat
    decreases if n < 0 then 0 else n, hand
  {
    if n <= 0 then 0 else SuitPrefix(hand, s, n - 1) + hand[Tile(s, n)]
  }

  /** The number of tiles of one suit, for hands of valid tiles. */
  function SuitSize(hand: multiset<Tile>, s: int): nat {
    SuitPrefix(hand, s, 9)
  }

  ghost predicate ValidHand(hand: multiset<Tile>) {
    forall t | t in hand :: ValidTile(t)
  }

  /** In a hand of valid tiles every group of a partition stays inside the table: runs
      start at values 1 to 7 of a numbered suit, pairs and triplets are valid tiles. */
  lemma GroupsAreValid(p: Partition, hand: multiset<Tile>)
    requires IsPartition(p, hand) && ValidHand(hand)
    ensures forall t | t in p.runs :: W <= t.suit <= S && 1 <= t.value <= 7
    ensures forall t | t in p.pairs :: ValidTile(t)
    ensures forall t | t in p.triplets :: ValidTile(t)
  {
    forall t | t in p.runs ensures W <= t.suit <= S && 1 <= t.value <= 7 {
      TakeRun(p, hand, t);
      assert t in hand && Shift(t, 2) in hand;
    }
    forall t | t in p.pairs || t in p.triplets ensures ValidTile(t) {
      assert hand[t] == Uses(p, t);
      assert t in hand;
    }
  }

  lemma RunsStayInside(runs: multiset<Tile>, s: int)
    requires forall t | t in runs :: 1 <= t.value <= 7
    ensures runs[Tile(s, -1)] == runs[Tile(s, 0)] == 0
    ensures SuitPrefix(runs, s, 9) == SuitPrefix(runs, s, 8) == SuitPrefix(runs, s, 7)
  {
    assert Tile(s, 9) !in runs && Tile(s, 8) !in runs && Tile(s, 0) !in runs && Tile(s, -1) !in runs;
  }

  lemma Residue(size: int, triplets: int, runs: int, pairs: int)
    requires size == 3 * triplets + 3 * runs + 2 * pairs && 0 <= pairs <= 1
    ensures size % 3 == 2 * pairs
  {
  }

  lemma {:induction false} PairPrefix(pair: Tile, s: int, n: nat)
    requires pair.value >= 1
    ensures SuitPrefix(multiset{pair}, s, n) == if s == pair.suit && pair.value <= n then 1 else 0
  {
    if n > 0 {
      PairPrefix(pair, s, n - 1);
      assert multiset{pair}[Tile(s, n)] == if pair == Tile(s, n) then 1 else 0;
    }
  }

  /** Summing the tiles a partition uses, value by value. */
  lemma {:induction false} PartitionPrefix(p: Partition, hand: multiset<Tile>, s: int, n: nat)
    requires IsPartition(p, hand)
    requires p.runs[Tile(s, -1)] == p.runs[Tile(s, 0)] == 0
    ensures SuitPrefix(hand, s, n) ==
      3 * SuitPrefix(p.triplets, s, n) + 2 * SuitPrefix(p.pairs, s, n) +
      SuitPrefix(p.runs, s, n) + SuitPrefix(p.runs, s, n - 1) + SuitPrefix(p.runs, s, n - 2)
  {
    if n > 0 {
      PartitionPrefix(p, hand, s, n - 1);
      assert hand[Tile(s, n)] == Uses(p, Tile(s, n));
      assert Shift(Tile(s, n), -1) == Tile(s, n - 1) && Shift(Tile(s, n), -2) == Tile(s, n - 2);
    }
  }

  /** Modulo 3 only the pair counts: the suit holding the pair has 3n + 2 tiles and every
      other suit 3n. */
  lemma SuitResidues(p: Partition, hand: multiset<Tile>, pair: Tile, s: int)
    requires IsPartition(p, hand) && ValidHand(hand) && p.pairs == multiset{pair}
    ensures ValidTile(pair)
    ensures SuitSize(hand, s) % 3 == if s == pair.suit then 2 else 0
  {
    GroupsAreValid(p, hand);
    assert pair in p.pairs;
    RunsStayInside(p.runs, s);
    PartitionPrefix(p, hand, s, 9);
    PairPrefix(pair, s, 9);
    Residue(SuitSize(hand, s), SuitSize(p.triplets, s), SuitSize(p.runs, s), if s == pair.suit then 1 else 0);
  }
}
