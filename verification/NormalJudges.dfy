/** The two judges for hands without wild cards, and why they agree. */
module NormalJudges {
  import opened Tiles
  import opened SevenPairs
  import opened Splitter
  import opened SplitTheorems
  import opened HuAnalyser

  /** The number of runs and triplets in a winning hand of `n` tiles. */
  function FactorN(n: nat): int {
    (n + 1) / 3 - 1
  }

  predicate WinningResult(r: Result, n: nat) {
    r.left == [] && |r.seqs| + |r.threes| == FactorN(n) && |r.twos| == 1
  }

  predicate SevenPairsResult(r: Result, n: nat) {
    r.left == [] && n == 14 && |r.seqs| == 0 && |r.twos| == 7
  }

  predicate Passes(r: Result, n: nat) {
    WinningResult(r, n) || SevenPairsResult(r, n)
  }

  // ----- what the outcomes of the splitter decide

  lemma OutcomeSize(ts: seq<Tile>, r: Result)
    requires r in Splits(ts) && r.left == []
    ensures IsPartition(PartitionOf(r), multiset(ts))
    ensures |ts| == 3 * |r.seqs| + 2 * |r.twos| + 3 * |r.threes|
  {
    SplitsConserve(ts, r);
    forall t ensures multiset(ts)[t] == Uses(PartitionOf(r), t) {
      assert multiset(ts)[t] == Uses(PartitionOf(r), t) + multiset(r.left)[t];
    }
    PartitionSize(PartitionOf(r), multiset(ts));
  }

  /** The count of runs and triplets is forced: one pair and nothing left over suffice. */
  lemma FactorNIsForced(ts: seq<Tile>, r: Result)
    requires r in Splits(ts) && r.left == [] && |r.twos| == 1
    ensures |r.seqs| + |r.threes| == FactorN(|ts|)
  {
    OutcomeSize(ts, r);
  }

  /** Some outcome passes the winning test exactly when the hand wins. */
  lemma WinningOutcome(ts: seq<Tile>)
    requires Sorted(ts)
    ensures (exists r :: r in Splits(ts) && WinningResult(r, |ts|)) <==> Wins(multiset(ts))
  {
    if r :| r in Splits(ts) && WinningResult(r, |ts|) {
      OutcomeSize(ts, r);
    }
    if Wins(multiset(ts)) {
      var p :| IsPartition(p, multiset(ts)) && |p.pairs| == 1;
      var r := PartitionFound(ts, p);
      FactorNIsForced(ts, r);
      assert WinningResult(r, |ts|);
    }
  }

  // ----- seven pairs in sorted hands

  function Half(ts: seq<Tile>): seq<Tile> {
    if |ts| < 2 then [] else [ts[0]] + Half(ts[2..])
  }

  lemma {:induction false} Halves(ts: seq<Tile>)
    ensures |Half(ts)| == |ts| / 2
  {
    if |ts| >= 2 {
      Halves(ts[2..]);
    }
  }

  lemma {:induction false} HalfCount(ts: seq<Tile>, t: Tile)
    requires PairedUp(ts)
    ensures multiset(ts)[t] == 2 * multiset(Half(ts))[t]
    decreases |ts|
  {
    if ts != [] {
      HalfCount(ts[2..], t);
      FirstTiles(ts, 2, t);
    }
  }

  lemma {:induction false} EvenPairsUp(ts: seq<Tile>)
    requires Sorted(ts) && forall t :: multiset(ts)[t] % 2 == 0
    ensures PairedUp(ts)
    decreases |ts|
  {
    if ts != [] {
      assert ts[0] in multiset(ts);
      assert multiset(ts)[ts[0]] % 2 == 0;
      FrontCopies(ts, ts[0], 2);
      forall t ensures multiset(ts[2..])[t] % 2 == 0 {
        FirstTiles(ts, 2, t);
      }
      EvenPairsUp(ts[2..]);
    }
  }

  /** In a sorted hand, even counts put equal tiles side by side. */
  lemma EvenIsPaired(ts: seq<Tile>)
    requires Sorted(ts)
    ensures PairedUp(ts) <==> forall t :: multiset(ts)[t] % 2 == 0
  {
    if PairedUp(ts) {
      forall t ensures multiset(ts)[t] % 2 == 0 { HalfCount(ts, t); }
    } else if forall t :: multiset(ts)[t] % 2 == 0 {
      EvenPairsUp(ts);
    }
  }

  lemma SortedSevenPairs(ts: seq<Tile>)
    requires Sorted(ts)
    ensures |ts| == 14 && PairedUp(ts) <==> IsSevenPairs(multiset(ts))
  {
    EvenIsPaired(ts);
  }

  lemma SevenPairsFound(ts: seq<Tile>)
    requires Sorted(ts) && IsSevenPairs(multiset(ts))
    ensures exists r :: r in Splits(ts) && SevenPairsResult(r, |ts|)
  {
    SortedSevenPairs(ts);
    Halves(ts);
    var p := Partition(multiset{}, multiset(Half(ts)), multiset{});
    forall t ensures multiset(ts)[t] == Uses(p, t) { HalfCount(ts, t); }
    var r := PartitionFound(ts, p);
    assert |multiset(r.twos)| == 7 && |multiset(r.seqs)| == 0;
    assert SevenPairsResult(r, |ts|);
  }

  lemma SevenPairsAreEven(ts: seq<Tile>, r: Result)
    requires IsPartition(PartitionOf(r), multiset(ts)) && SevenPairsResult(r, |ts|)
    requires |ts| == 3 * |r.seqs| + 2 * |r.twos| + 3 * |r.threes|
    ensures IsSevenPairs(multiset(ts))
  {
    assert r.seqs == r.threes == [];
    forall t ensures multiset(ts)[t] % 2 == 0 {
      assert multiset(ts)[t] == Uses(PartitionOf(r), t) == 2 * multiset(r.twos)[t];
    }
  }

  /** Some outcome passes the seven-pairs test exactly when the hand is seven pairs. */
  lemma SevenPairsOutcome(ts: seq<Tile>)
    requires Sorted(ts)
    ensures (exists r :: r in Splits(ts) && SevenPairsResult(r, |ts|)) <==> IsSevenPairs(multiset(ts))
  {
    if r :| r in Splits(ts) && SevenPairsResult(r, |ts|) {
      OutcomeSize(ts, r);
      SevenPairsAreEven(ts, r);
    }
    if IsSevenPairs(multiset(ts)) {
      SevenPairsFound(ts);
    }
  }

  // ----- the two judges

  /** Some outcome passes one of the two tests exactly when the hand has one of the shapes. */
  lemma OutcomesDecide(ts: seq<Tile>)
    requires Sorted(ts)
    ensures (exists k :: 0 <= k < |Splits(ts)| && Passes(Splits(ts)[k], |ts|)) <==>
      Wins(multiset(ts)) || IsSevenPairs(multiset(ts))
  {
    WinningOutcome(ts);
    SevenPairsOutcome(ts);
    var rs := Splits(ts);
    if r :| r in rs && Passes(r, |ts|) {
      var k :| 0 <= k < |rs| && rs[k] == r;
    }
  }

  method AnalyzeNormalCards(handCards: seq<Tile>) returns (isHu: bool)
    requires Sorted(handCards) && Typed(handCards)
    ensures isHu <==> Wins(multiset(handCards)) || IsSevenPairs(multiset(handCards))
  {
    ghost var hand := multiset(handCards);
    var handLen := |handCards|;
    var factorN := (handLen + 1) / 3 - 1;
    var anaRes := Split(handCards);
    OutcomesDecide(handCards);
    var i := 0;
    while i < |anaRes|
      invariant 0 <= i <= |anaRes|
      invariant forall k | 0 <= k < i :: !Passes(anaRes[k], handLen)
    {
      var v := anaRes[i];
      if |v.left| == 0 {
        if |v.seqs| + |v.threes| == factorN && |v.twos| == 1 {
          assert Passes(v, handLen);
          return true;
        }
        if handLen == 14 && |v.seqs| == 0 && |v.twos| == 7 {
          assert Passes(v, handLen);
          return true;
        }
      }
      i := i + 1;
    }
    return false;
  }

  method AnalyzeNormalCardsOpt(handCards: seq<Tile>) returns (isHu: bool)
    ensures isHu <==> (|handCards| == 14 && PairedUp(handCards)) || Wins(multiset(ValidPrefix(handCards)))
  {
    var ha := new HuAnalyser001();
    isHu := ha.Split001(handCards);
  }

  /** The two judges' answers are the same on every sorted hand of valid tiles. */
  lemma JudgesAgree(handCards: seq<Tile>)
    requires Sorted(handCards) && ValidTiles(handCards)
    ensures (|handCards| == 14 && PairedUp(handCards)) || Wins(multiset(ValidPrefix(handCards))) <==>
      Wins(multiset(handCards)) || IsSevenPairs(multiset(handCards))
  {
    ValidPrefixAll(handCards);
    SortedSevenPairs(handCards);
  }
}
