/** Judging a hand once tiles are chosen for its wild cards, by ordered insertion and the
    splitter or by sorting and the count table. */
module WildJudges {
  import opened Tiles
  import opened Splitter
  import opened SplitTheorems
  import opened HuAnalyser
  import opened NormalJudges

  // ----- ordered insertion and sorting

  function Insert(ts: seq<Tile>, v: Tile): seq<Tile> {
    if ts == [] then [v] else if !Less(ts[0], v) then [v] + ts else [ts[0]] + Insert(ts[1..], v)
  }

  function InsertAll(ts: seq<Tile>, vs: seq<Tile>): seq<Tile>
    decreases |vs|
  {
    if vs == [] then ts else InsertAll(Insert(ts, vs[0]), vs[1..])
  }

  /** The result of sorting by suit and then value. */
  function Ordered(ts: seq<Tile>): seq<Tile> {
    InsertAll([], ts)
  }

  lemma InsertKeepsFirst(ts: seq<Tile>, v: Tile)
    requires Sorted(ts) && ts != [] && Less(ts[0], v)
    requires var rest := Insert(ts[1..], v); Sorted(rest) && multiset(rest) == multiset(ts[1..]) + multiset{v}
    ensures Sorted([ts[0]] + Insert(ts[1..], v))
  {
    var rest := Insert(ts[1..], v);
    forall k | 0 <= k < |rest| ensures !Less(rest[k], ts[0]) {
      assert rest[k] in multiset(rest);
      if rest[k] != v {
        var m :| 0 < m < |ts| && ts[m] == rest[k];
        assert !Less(ts[m], ts[0]);
      }
    }
  }

  lemma {:induction false} InsertTiles(ts: seq<Tile>, v: Tile)
    ensures multiset(Insert(ts, v)) == multiset(ts) + multiset{v}
    ensures Sorted(ts) ==> Sorted(Insert(ts, v))
  {
    if ts != [] && Less(ts[0], v) {
      InsertTiles(ts[1..], v);
      assert ts == [ts[0]] + ts[1..];
      if Sorted(ts) {
        InsertKeepsFirst(ts, v);
      }
    } else if ts != [] && Sorted(ts) {
      forall k | 0 <= k < |ts| ensures !Less(ts[k], v) {
        assert k > 0 ==> !Less(ts[k], ts[0]);
      }
    }
  }

  /** Insertion keeps the order and adds exactly the given tiles. */
  lemma {:induction false} InsertAllTiles(ts: seq<Tile>, vs: seq<Tile>)
    ensures multiset(InsertAll(ts, vs)) == multiset(ts) + multiset(vs)
    ensures Sorted(ts) ==> Sorted(InsertAll(ts, vs))
    decreases |vs|
  {
    if vs != [] {
      InsertTiles(ts, vs[0]);
      InsertAllTiles(Insert(ts, vs[0]), vs[1..]);
      assert vs == [vs[0]] + vs[1..];
    }
  }

  lemma {:induction false} InsertAt(ts: seq<Tile>, v: Tile, k: nat)
    requires k <= |ts| && (forall i | 0 <= i < k :: Less(ts[i], v)) && (k == |ts| || !Less(ts[k], v))
    ensures Insert(ts, v) == ts[..k] + [v] + ts[k..]
  {
    if k > 0 {
      InsertAt(ts[1..], v, k - 1);
      assert ts[..k] == [ts[0]] + ts[1..][..k - 1];
      assert ts[k..] == ts[1..][k - 1..];
    }
  }

  /** Inserts each wild tile before the first tile that is not below it. */
  method SortInsertCards(noWildCards: seq<Tile>, wildCards: seq<Tile>) returns (out: seq<Tile>)
    ensures out == InsertAll(noWildCards, wildCards)
  {
    var copyCards := noWildCards;
    var i := 0;
    while i < |wildCards|
      invariant 0 <= i <= |wildCards|
      invariant InsertAll(copyCards, wildCards[i..]) == InsertAll(noWildCards, wildCards)
    {
      var v := wildCards[i];
      var hasInsert := false;
      var k := 0;
      ghost var before := copyCards;
      while k < |copyCards|
        invariant 0 <= k <= |copyCards| && !hasInsert && copyCards == before
        invariant forall m | 0 <= m < k :: Less(before[m], v)
      {
        var inner := copyCards[k];
        if (inner.suit != v.suit && inner.suit > v.suit) || (inner.suit == v.suit && inner.value >= v.value) {
          copyCards := copyCards[..k] + [v] + copyCards[k..];
          hasInsert := true;
          break;
        }
        k := k + 1;
      }
      InsertAt(before, v, k);
      if !hasInsert {
        copyCards := copyCards + [v];
      }
      assert copyCards == Insert(before, v);
      assert wildCards[i..][1..] == wildCards[i + 1..];
      i := i + 1;
    }
    assert wildCards[i..] == [];
    out := copyCards;
  }

  // ----- judging a hand with tiles chosen for the wild cards

  method AnaWild3NP2CardsOpt(noWildCards: seq<Tile>, wildCards: seq<Tile>) returns (isHu: bool)
    requires Sorted(noWildCards) && Typed(noWildCards) && Typed(wildCards)
    ensures isHu <==> Wins(multiset(noWildCards) + multiset(wildCards))
  {
    var fullCards := SortInsertCards(noWildCards, wildCards);
    InsertAllTiles(noWildCards, wildCards);
    forall t | t in fullCards ensures 0 <= t.value < 0x1_0000_0000 {
      assert t in multiset(fullCards);
      assert t in noWildCards || t in wildCards;
    }
    var factorN := (|fullCards| + 1) / 3 - 1;
    var anaRes := Split(fullCards);
    WinningOutcome(fullCards);
    var i := 0;
    while i < |anaRes|
      invariant 0 <= i <= |anaRes|
      invariant forall k | 0 <= k < i :: !WinningResult(anaRes[k], |fullCards|)
    {
      var v := anaRes[i];
      if |v.left| == 0 && |v.twos| == 1 && |v.seqs| + |v.threes| == factorN {
        assert WinningResult(v, |fullCards|);
        return true;
      }
      i := i + 1;
    }
    return false;
  }

  method AnaWild3NP2CardsOpt2(noWildCards: seq<Tile>, wildCards: seq<Tile>) returns (isHu: bool)
    ensures isHu <==> Wins(multiset(ValidPrefix(Ordered(noWildCards + wildCards))))
  {
    var fullCards := noWildCards + wildCards;
    fullCards := Ordered(fullCards);
    var ha := new HuAnalyser001();
    isHu := ha.Split002(fullCards);
  }

  /** The two judges agree on valid tiles: sorting or inserting, splitting or counting, the
      answer depends only on which tiles there are. */
  lemma WildJudgesAgree(noWildCards: seq<Tile>, wildCards: seq<Tile>)
    requires ValidTiles(noWildCards) && ValidTiles(wildCards)
    ensures Wins(multiset(ValidPrefix(Ordered(noWildCards + wildCards)))) <==>
      Wins(multiset(noWildCards) + multiset(wildCards))
  {
    var full := Ordered(noWildCards + wildCards);
    InsertAllTiles([], noWildCards + wildCards);
    forall t | t in full ensures ValidTile(t) {
      assert t in multiset(full);
      assert t in noWildCards + wildCards;
    }
    ValidPrefixAll(full);
    assert multiset(noWildCards + wildCards) == multiset(noWildCards) + multiset(wildCards);
  }
}
