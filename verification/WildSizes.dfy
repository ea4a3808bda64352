/** For which sizes of the hand and numbers of wild cards the wild-card search answers the
    question it is asked: whether some tiles for all the wild cards win. */
module WildSizes {
  import Counting
  import opened Tiles
  import opened WildSearch

  /** The search answers rightly. */
  ghost predicate Right(hand: seq<Tile>, wildNum: nat) {
    Verdict(hand, wildNum) <==> CanWin(hand, wildNum)
  }

  /** Without wild cards the search always says no, so the hand must not have 3m + 2 tiles. One
      to three wild cards must bring it to 3m + 2 tiles, or be a single one where two are
      lacking. Of more than three the search uses only a least completion, which is as good as
      all of them only with at most two other tiles. */
  predicate RightSize(n: nat, wildNum: nat) {
    if wildNum == 0 then n % 3 != 2
    else if wildNum <= 3 then (n + wildNum) % 3 == 2 || (n % 3 == 0 && wildNum == 1)
    else (n + wildNum) % 3 == 2 && n <= 2
  }

  // ----- building winning hands

  lemma PairWins(t: Tile)
    ensures Wins(multiset{t, t})
  {
    var p := Partition(multiset{}, multiset{t}, multiset{});
    forall u ensures multiset{t, t}[u] == Uses(p, u) {}
    assert IsPartition(p, multiset{t, t}) && |p.pairs| == 1;
  }

  lemma TripletWins(hand: multiset<Tile>, t: Tile)
    requires Wins(hand)
    ensures Wins(hand + multiset{t, t, t})
  {
    var p :| IsPartition(p, hand) && |p.pairs| == 1;
    var q := p.(triplets := p.triplets + multiset{t});
    forall u ensures (hand + multiset{t, t, t})[u] == Uses(q, u) {
      assert hand[u] == Uses(p, u);
    }
    assert IsPartition(q, hand + multiset{t, t, t}) && |q.pairs| == 1;
  }

  const ONE := Tile(W, 1)

  /** `n` triplets of one tile. */
  function Triplets(n: nat): (ts: seq<Tile>)
    ensures |ts| == 3 * n && forall t | t in ts :: t == ONE
  {
    if n == 0 then [] else [ONE, ONE, ONE] + Triplets(n - 1)
  }

  lemma OneMoreTriplet(n: nat)
    requires n > 0
    ensures multiset(Triplets(n)) == multiset{ONE, ONE, ONE} + multiset(Triplets(n - 1))
  {
    assert Triplets(n) == [ONE, ONE, ONE] + Triplets(n - 1);
  }

  lemma Regroup(a: multiset<Tile>, b: multiset<Tile>, c: multiset<Tile>)
    ensures a + b + c == b + c + a
  {
  }

  lemma {:induction false} TripletsWin(n: nat, rest: multiset<Tile>)
    requires Wins(rest)
    ensures Wins(multiset(Triplets(n)) + rest)
  {
    if n == 0 {
      assert multiset(Triplets(0)) + rest == rest;
    } else {
      TripletsWin(n - 1, rest);
      TripletWins(multiset(Triplets(n - 1)) + rest, ONE);
      OneMoreTriplet(n);
      Regroup(multiset{ONE, ONE, ONE}, multiset(Triplets(n - 1)), rest);
    }
  }

  /** Three more wild cards may become a triplet. */
  lemma {:induction false} MoreWildCards(hand: seq<Tile>, wildNum: nat, n: nat)
    requires CanWin(hand, wildNum)
    ensures CanWin(hand, wildNum + 3 * n)
  {
    if n > 0 {
      MoreWildCards(hand, wildNum, n - 1);
      var fill: seq<Tile> :| Winning(hand, fill) && |fill| == wildNum + 3 * (n - 1);
      var more := fill + [ONE, ONE, ONE];
      TripletWins(multiset(hand) + multiset(fill), ONE);
      assert multiset(hand) + multiset(more) == multiset(hand) + multiset(fill) + multiset{ONE, ONE, ONE};
      assert Winning(hand, more) && |more| == wildNum + 3 * n;
    }
  }

  lemma WithTriplets(n: nat, rest: seq<Tile>, fill: seq<Tile>)
    requires ValidTiles(fill) && Wins(multiset(rest) + multiset(fill))
    ensures Winning(Triplets(n) + rest, fill)
  {
    TripletsWin(n, multiset(rest) + multiset(fill));
    assert multiset(Triplets(n) + rest) + multiset(fill) == multiset(Triplets(n)) + (multiset(rest) + multiset(fill));
  }

  // ----- hands that are found although wild cards are left over

  const TWO := Tile(W, 2)

  /** What is left of `n` tiles when triplets are taken: none, one or two of the next tile. */
  function Odd(n: nat): (ts: seq<Tile>)
    ensures |ts| == n % 3 && ValidTiles(ts)
  {
    if n % 3 == 0 then [] else if n % 3 == 1 then [TWO] else [TWO, TWO]
  }

  function Plain(n: nat): (hand: seq<Tile>)
    ensures |hand| == n && ValidTiles(hand)
  {
    Triplets(n / 3) + Odd(n)
  }

  /** A least completion of it. */
  function PlainFill(n: nat): (fill: seq<Tile>)
    ensures |fill| == Missing(n) && SameSuit(fill) && ValidTiles(fill)
  {
    if n % 3 == 0 then [TWO, TWO] else if n % 3 == 1 then [TWO] else [ONE, ONE, ONE]
  }

  lemma OddWins(n: nat)
    ensures Wins(multiset(Odd(n)) + multiset(PlainFill(n)))
  {
    var all := multiset(Odd(n)) + multiset(PlainFill(n));
    PairWins(TWO);
    if n % 3 == 2 {
      TripletWins(multiset{TWO, TWO}, ONE);
      assert all == multiset{TWO, TWO} + multiset{ONE, ONE, ONE};
    } else {
      assert all == multiset{TWO, TWO};
    }
  }

  lemma PlainIsFound(n: nat, wildNum: nat)
    requires wildNum >= 1 && (n % 3 == 0 ==> wildNum > 1)
    ensures Verdict(Plain(n), wildNum)
  {
    OddWins(n);
    WithTriplets(n / 3, Odd(n), PlainFill(n));
  }

  lemma OtherTotalsNeverWin(hand: seq<Tile>, wildNum: nat)
    requires (|hand| + wildNum) % 3 != 2
    ensures !CanWin(hand, wildNum)
  {
    forall fill | Winning(hand, fill) ensures |fill| != wildNum {
      CompletedSize(hand, fill);
    }
  }

  lemma FoundInVain(hand: seq<Tile>, wildNum: nat)
    requires Verdict(hand, wildNum) && (|hand| + wildNum) % 3 != 2
    ensures !Right(hand, wildNum)
  {
    OtherTotalsNeverWin(hand, wildNum);
  }

  /** Without wild cards a winning hand is denied. */
  lemma WinDenied(n: nat)
    requires n % 3 == 2
    ensures !Right(Plain(n), 0)
  {
    PairWins(TWO);
    assert multiset(Odd(n)) + multiset([]) == multiset{TWO, TWO};
    WithTriplets(n / 3, Odd(n), []);
    assert Winning(Plain(n), []);
  }

  // ----- hands that more than three wild cards complete, but no least completion does

  const T_ONE := Tile(T, 1)
  const S_ONE := Tile(S, 1)
  const Z_ONE := Tile(Z, 1)

  /** What is scattered: single tiles of three suits, and one or two more by the size. */
  function Singles(n: nat): (ts: seq<Tile>)
    ensures |ts| == 3 + n % 3 && ValidTiles(ts)
  {
    if n % 3 == 0 then [TWO, T_ONE, S_ONE]
    else if n % 3 == 1 then [TWO, T_ONE, S_ONE, S_ONE]
    else [TWO, T_ONE, S_ONE, Z_ONE, Z_ONE]
  }

  function Scattered(n: nat): (hand: seq<Tile>)
    requires n >= 3
    ensures |hand| == n && ValidTiles(hand)
  {
    Triplets(n / 3 - 1) + Singles(n)
  }

  /** It takes three tiles more than a least completion. */
  function ScatteredFill(n: nat): (fill: seq<Tile>)
    ensures |fill| == Missing(n) + 3 && ValidTiles(fill)
  {
    if n % 3 == 0 then [TWO, T_ONE, T_ONE, S_ONE, S_ONE]
    else if n % 3 == 1 then [TWO, TWO, T_ONE, T_ONE]
    else [TWO, TWO, T_ONE, T_ONE, S_ONE, S_ONE]
  }

  lemma PairAndTriplets(t: Tile, u: Tile, v: Tile)
    ensures Wins(multiset{t, t} + multiset{u, u, u} + multiset{v, v, v})
  {
    PairWins(t);
    TripletWins(multiset{t, t}, u);
    TripletWins(multiset{t, t} + multiset{u, u, u}, v);
  }

  lemma FiveMore()
    ensures Wins(multiset([TWO, T_ONE, S_ONE]) + multiset([TWO, T_ONE, T_ONE, S_ONE, S_ONE]))
  {
    PairAndTriplets(TWO, T_ONE, S_ONE);
    assert multiset([TWO, T_ONE, S_ONE]) + multiset([TWO, T_ONE, T_ONE, S_ONE, S_ONE]) ==
      multiset{TWO, TWO} + multiset{T_ONE, T_ONE, T_ONE} + multiset{S_ONE, S_ONE, S_ONE};
  }

  lemma FourMore()
    ensures Wins(multiset([TWO, T_ONE, S_ONE, S_ONE]) + multiset([TWO, TWO, T_ONE, T_ONE]))
  {
    PairAndTriplets(S_ONE, TWO, T_ONE);
    assert multiset([TWO, T_ONE, S_ONE, S_ONE]) + multiset([TWO, TWO, T_ONE, T_ONE]) ==
      multiset{S_ONE, S_ONE} + multiset{TWO, TWO, TWO} + multiset{T_ONE, T_ONE, T_ONE};
  }

  lemma SixMore()
    ensures Wins(multiset([TWO, T_ONE, S_ONE, Z_ONE, Z_ONE]) + multiset([TWO, TWO, T_ONE, T_ONE, S_ONE, S_ONE]))
  {
    var m := multiset{Z_ONE, Z_ONE} + multiset{TWO, TWO, TWO} + multiset{T_ONE, T_ONE, T_ONE};
    PairAndTriplets(Z_ONE, TWO, T_ONE);
    TripletWins(m, S_ONE);
    assert multiset([TWO, T_ONE, S_ONE, Z_ONE, Z_ONE]) + multiset([TWO, TWO, T_ONE, T_ONE, S_ONE, S_ONE]) ==
      m + multiset{S_ONE, S_ONE, S_ONE};
  }

  lemma SinglesWin(n: nat)
    ensures Wins(multiset(Singles(n)) + multiset(ScatteredFill(n)))
  {
    if n % 3 == 0 {
      FiveMore();
    } else if n % 3 == 1 {
      FourMore();
    } else {
      SixMore();
    }
  }

  lemma ScatteredCanWin(n: nat)
    requires n >= 3
    ensures CanWin(Scattered(n), Missing(n) + 3)
  {
    SinglesWin(n);
    WithTriplets(n / 3 - 1, Singles(n), ScatteredFill(n));
  }

  lemma ThreeCount(s: int)
    ensures Counting.Count([ONE, ONE, ONE], OfSuit(s)) == if s == W then 3 else 0
  {
    var none: seq<Tile> := [];
    Counting.CountAppend(none, ONE, OfSuit(s));
    Counting.CountAppend([ONE], ONE, OfSuit(s));
    Counting.CountAppend([ONE, ONE], ONE, OfSuit(s));
    assert none + [ONE] == [ONE] && [ONE] + [ONE] == [ONE, ONE] && [ONE, ONE] + [ONE] == [ONE, ONE, ONE];
  }

  lemma {:induction false} TripletCount(n: nat, s: int)
    ensures Counting.Count(Triplets(n), OfSuit(s)) == if s == W then 3 * n else 0
  {
    if n > 0 {
      TripletCount(n - 1, s);
      Counting.CountConcat([ONE, ONE, ONE], Triplets(n - 1), OfSuit(s));
      ThreeCount(s);
    }
  }

  lemma ThreeSizes()
    ensures SuitSizes([TWO, T_ONE, S_ONE]) == [1, 1, 1, 0]
  {
    var none: seq<Tile> := [];
    OneMoreSize(none, TWO);
    OneMoreSize([TWO], T_ONE);
    OneMoreSize([TWO, T_ONE], S_ONE);
    assert none + [TWO] == [TWO] && [TWO] + [T_ONE] == [TWO, T_ONE];
    assert [TWO, T_ONE] + [S_ONE] == [TWO, T_ONE, S_ONE];
  }

  lemma SinglesSizes(n: nat)
    ensures SuitSizes(Singles(n)) == [1, 1, if n % 3 == 1 then 2 else 1, if n % 3 == 2 then 2 else 0]
  {
    var three := [TWO, T_ONE, S_ONE];
    ThreeSizes();
    if n % 3 == 1 {
      OneMoreSize(three, S_ONE);
      assert Singles(n) == three + [S_ONE];
    } else if n % 3 == 2 {
      OneMoreSize(three, Z_ONE);
      OneMoreSize(three + [Z_ONE], Z_ONE);
      assert Singles(n) == three + [Z_ONE] + [Z_ONE];
    }
  }

  lemma ScatteredCount(n: nat, s: int)
    requires n >= 3
    ensures Counting.Count(Scattered(n), OfSuit(s)) ==
      Counting.Count(Singles(n), OfSuit(s)) + if s == W then 3 * (n / 3 - 1) else 0
  {
    TripletCount(n / 3 - 1, s);
    Counting.CountConcat(Triplets(n / 3 - 1), Singles(n), OfSuit(s));
  }

  lemma ScatteredSizes(n: nat)
    requires n >= 3
    ensures var sizes := SuitSizes(Scattered(n));
      && sizes[0] % 3 == 1 && sizes[1] == 1
      && sizes[2] == (if n % 3 == 1 then 2 else 1) && sizes[3] == if n % 3 == 2 then 2 else 0
  {
    SinglesSizes(n);
    ScatteredCount(n, W);
    ScatteredCount(n, T);
    ScatteredCount(n, S);
    ScatteredCount(n, Z);
  }

  /** Whichever suit holds the pair, more is lacking than a least completion has. */
  predicate LacksMore(sizes: seq<nat>, n: nat)
    requires |sizes| == 4
  {
    forall i | 0 <= i < 4 :: Total(Lacks(sizes, i)) > Missing(n)
  }

  /** A hand whose suits lack more than a least completion has, for every pair suit. */
  lemma TooFewTiles(hand: seq<Tile>, wildNum: nat)
    requires ValidTiles(hand) && LacksMore(SuitSizes(hand), |hand|)
    ensures !Verdict(hand, wildNum)
  {
    ValidSizes(hand);
    forall fill | Winning(hand, fill) && |fill| == Missing(|hand|) ensures false {
      var i := FillMatchesNeeds(hand, fill);
      SuitsHoldAll(fill);
      assert false;
    }
  }

  lemma ScatteredLacks(n: nat, sizes: seq<nat>)
    requires |sizes| == 4 && sizes[0] % 3 == 1 && sizes[1] == 1
    requires sizes[2] == (if n % 3 == 1 then 2 else 1) && sizes[3] == if n % 3 == 2 then 2 else 0
    ensures LacksMore(sizes, n)
  {
    assert Total(Lacks(sizes, 0)) > Missing(n) && Total(Lacks(sizes, 1)) > Missing(n);
    assert Total(Lacks(sizes, 2)) > Missing(n) && Total(Lacks(sizes, 3)) > Missing(n);
  }

  lemma ScatteredIsDenied(n: nat, wildNum: nat)
    requires n >= 3
    ensures !Verdict(Scattered(n), wildNum)
  {
    ScatteredSizes(n);
    ScatteredLacks(n, SuitSizes(Scattered(n)));
    TooFewTiles(Scattered(n), wildNum);
  }

  lemma ManyWildCards(n: nat, wildNum: nat)
    requires wildNum > 3 && n >= 3 && (n + wildNum) % 3 == 2
    ensures !Right(Scattered(n), wildNum)
  {
    var more := (wildNum - Missing(n) - 3) / 3;
    assert wildNum == Missing(n) + 3 + 3 * more;
    ScatteredIsDenied(n, wildNum);
    ScatteredCanWin(n);
    MoreWildCards(Scattered(n), Missing(n) + 3, more);
  }

  // ----- at most two tiles

  lemma TwoTiles(t: Tile, u: Tile) returns (fill: seq<Tile>)
    requires ValidTile(t) && ValidTile(u)
    ensures Winning([t, u], fill) && |fill| == 3
  {
    fill := [t, t, u];
    PairWins(u);
    TripletWins(multiset{u, u}, t);
    assert multiset([t, u]) + multiset(fill) == multiset{u, u} + multiset{t, t, t};
  }

  lemma FewFill(hand: seq<Tile>) returns (fill: seq<Tile>)
    requires ValidTiles(hand) && |hand| <= 2
    ensures Winning(hand, fill) && |fill| == Missing(|hand|)
  {
    if |hand| == 0 {
      fill := [ONE, ONE];
      PairWins(ONE);
      assert multiset(hand) + multiset(fill) == multiset{ONE, ONE};
    } else if |hand| == 1 {
      fill := [hand[0]];
      PairWins(hand[0]);
      assert hand == [hand[0]];
      assert multiset(hand) + multiset(fill) == multiset{hand[0], hand[0]};
    } else {
      fill := TwoTiles(hand[0], hand[1]);
      assert hand == [hand[0], hand[1]];
    }
  }

  lemma FewTiles(hand: seq<Tile>, wildNum: nat)
    requires ValidTiles(hand) && |hand| <= 2 && wildNum > 3 && (|hand| + wildNum) % 3 == 2
    ensures Verdict(hand, wildNum) && CanWin(hand, wildNum)
  {
    var k := Missing(|hand|);
    var fill := FewFill(hand);
    assert Winning(hand, fill) && |fill| == k;
    var more := (wildNum - k) / 3;
    assert wildNum == k + 3 * more;
    MoreWildCards(hand, k, more);
  }

  // ----- the exact sizes

  lemma RightSizeIsRight(hand: seq<Tile>, wildNum: nat)
    requires ValidTiles(hand) && RightSize(|hand|, wildNum)
    ensures Right(hand, wildNum)
  {
    if wildNum > 3 {
      FewTiles(hand, wildNum);
    } else if (|hand| + wildNum) % 3 == 2 {
      SearchIsExact(hand, wildNum);
    } else {
      OtherTotalsNeverWin(hand, wildNum);
    }
  }

  lemma WrongSizeIsWrong(n: nat, wildNum: nat) returns (hand: seq<Tile>)
    requires !RightSize(n, wildNum)
    ensures ValidTiles(hand) && |hand| == n && !Right(hand, wildNum)
  {
    if wildNum == 0 {
      hand := Plain(n);
      WinDenied(n);
    } else if (n + wildNum) % 3 != 2 {
      hand := Plain(n);
      PlainIsFound(n, wildNum);
      FoundInVain(hand, wildNum);
    } else {
      hand := Scattered(n);
      ManyWildCards(n, wildNum);
    }
  }

  /** The exact condition, which a caller can check beforehand: the search is right on every
      hand of `n` valid tiles exactly for these sizes. */
  lemma RightIffRightSize(n: nat, wildNum: nat)
    ensures (forall hand | ValidTiles(hand) && |hand| == n :: Right(hand, wildNum)) <==> RightSize(n, wildNum)
  {
    if RightSize(n, wildNum) {
      forall hand | ValidTiles(hand) && |hand| == n ensures Right(hand, wildNum) {
        RightSizeIsRight(hand, wildNum);
      }
    } else {
      var hand := WrongSizeIsWrong(n, wildNum);
    }
  }
}
