/** The wild-card search: prune by the sizes of the suits modulo 3, then try tiles for the
    wild cards suit by suit. */
module WildSearch {
  import Counting
  import opened Tiles
  import opened HuAnalyser
  import opened WildJudges

  // ----- how many tiles each suit lacks

  function NumToBe3N(length: nat): nat {
    (3 - length % 3) % 3
  }

  function NumToBe3NPlus2(length: nat): nat {
    2 - length % 3
  }

  /** The number of tiles of suit `j + 1`. */
  function InSuit(hand: multiset<Tile>, j: int): nat {
    SuitSize(hand, j + 1)
  }

  /** How many tiles of `m` are in each suit. */
  function Counts(m: multiset<Tile>): seq<nat> {
    [InSuit(m, 0), InSuit(m, 1), InSuit(m, 2), InSuit(m, 3)]
  }

  /** What each suit lacks if suit `i + 1` is to hold the pair. */
  function Lacks(sizes: seq<nat>, i: nat): seq<int>
    requires |sizes| == 4
  {
    seq(4, j requires 0 <= j < 4 => if i == j then NumToBe3NPlus2(sizes[j]) else NumToBe3N(sizes[j]))
  }

  function Needs(hand: multiset<Tile>, i: nat): seq<int> {
    Lacks(Counts(hand), i)
  }

  function Total(needs: seq<int>): int
    requires |needs| == 4
  {
    needs[0] + needs[1] + needs[2] + needs[3]
  }

  /** The entry the pruning keeps for pair suit `i + 1`, empty when it lacks too much. */
  function Kept(sizes: seq<nat>, wildNum: int, i: nat): seq<int>
    requires |sizes| == 4
  {
    if wildNum != 0 && Total(Lacks(sizes, i)) <= wildNum then Lacks(sizes, i) else []
  }

  function OfSuit(s: int): Tile -> bool {
    (t: Tile) => t.suit == s
  }

  /** The sizes of the suits, whatever the values of the tiles. */
  function SuitSizes(cards: seq<Tile>): seq<nat> {
    [Counting.Count(cards, OfSuit(W)), Counting.Count(cards, OfSuit(T)),
     Counting.Count(cards, OfSuit(S)), Counting.Count(cards, OfSuit(Z))]
  }

  /** Every tile is of one of the four suits. */
  predicate FourSuits(cards: seq<Tile>) {
    forall t | t in cards :: W <= t.suit <= Z
  }

  lemma OneMoreSize(cards: seq<Tile>, v: Tile)
    ensures forall j | 0 <= j < 4 :: SuitSizes(cards + [v])[j] == SuitSizes(cards)[j] + Counting.One(j == v.suit - 1)
  {
    Counting.CountAppend(cards, v, OfSuit(W));
    Counting.CountAppend(cards, v, OfSuit(T));
    Counting.CountAppend(cards, v, OfSuit(S));
    Counting.CountAppend(cards, v, OfSuit(Z));
  }

  method GroupBySuit(cards: seq<Tile>) returns (menGroup: seq<seq<Tile>>)
    requires FourSuits(cards)
    ensures |menGroup| == 4 && forall j | 0 <= j < 4 :: |menGroup[j]| == SuitSizes(cards)[j]
  {
    menGroup := [[], [], [], []];
    var i := 0;
    while i < |cards|
      invariant 0 <= i <= |cards| && |menGroup| == 4
      invariant forall j | 0 <= j < 4 :: |menGroup[j]| == SuitSizes(cards[..i])[j]
    {
      var v := cards[i];
      assert cards[..i + 1] == cards[..i] + [v];
      OneMoreSize(cards[..i], v);
      menGroup := menGroup[v.suit - 1 := menGroup[v.suit - 1] + [v]];
      i := i + 1;
    }
    assert cards[..i] == cards;
  }

  /** The tiles each suit lacks when suit `i + 1` is to hold the pair, and their total. */
  method SuitNeeds(ghost cards: seq<Tile>, menGroup: seq<seq<Tile>>, i: nat)
    returns (tempAna: seq<int>, needAllNum: int)
    requires |menGroup| == 4 && i < 4
    requires forall j | 0 <= j < 4 :: |menGroup[j]| == SuitSizes(cards)[j]
    ensures tempAna == Lacks(SuitSizes(cards), i) && needAllNum == Total(tempAna)
  {
    ghost var needs := Lacks(SuitSizes(cards), i);
    tempAna := [0, 0, 0, 0];
    needAllNum := 0;
    var j := 0;
    while j < 4
      invariant 0 <= j <= 4 && |tempAna| == 4
      invariant forall k | 0 <= k < 4 :: tempAna[k] == if k < j && k != i then needs[k] else 0
      invariant needAllNum == Total(tempAna)
    {
      if i != j {
        tempAna := tempAna[j := NumToBe3N(|menGroup[j]|)];
        needAllNum := needAllNum + tempAna[j];
      }
      j := j + 1;
    }
    tempAna := tempAna[i := NumToBe3NPlus2(|menGroup[i]|)];
    needAllNum := needAllNum + tempAna[i];
  }

  method PreAna3NP2WildCards(noWildCards: seq<Tile>, wildNum: int) returns (menAna: seq<seq<int>>)
    requires FourSuits(noWildCards)
    ensures |menAna| == 4
    ensures forall i | 0 <= i < 4 :: menAna[i] == Kept(SuitSizes(noWildCards), wildNum, i)
  {
    menAna := [[], [], [], []];
    if wildNum == 0 {
      return;
    }
    var menGroup := GroupBySuit(noWildCards);
    var i := 0;
    while i < 4
      invariant 0 <= i <= 4 && |menAna| == 4
      invariant forall k | 0 <= k < i :: menAna[k] == Kept(SuitSizes(noWildCards), wildNum, k)
    {
      var tempAna, needAllNum := SuitNeeds(noWildCards, menGroup, i);
      if needAllNum <= wildNum {
        menAna := menAna[i := tempAna];
      } else {
        menAna := menAna[i := []];
      }
      i := i + 1;
    }
  }

  lemma NoTiles(m: multiset<Tile>)
    requires m == multiset{}
    ensures forall j | 0 <= j < 4 :: InSuit(m, j) == 0
  {
    forall j | 0 <= j < 4 ensures InSuit(m, j) == 0 { SuitPrefixEmpty(j + 1, 9); }
  }

  lemma OneMoreTile(m: multiset<Tile>, v: Tile)
    requires ValidTile(v)
    ensures forall j | 0 <= j < 4 :: InSuit(m + multiset{v}, j) == InSuit(m, j) + if j == v.suit - 1 then 1 else 0
  {
    forall j | 0 <= j < 4 ensures InSuit(m + multiset{v}, j) == InSuit(m, j) + if j == v.suit - 1 then 1 else 0 {
      SuitPrefixAdd(m, v, j + 1, 9);
    }
  }

  /** In a hand of valid tiles these are the sizes the count table has. */
  lemma {:induction false} ValidSizes(cards: seq<Tile>)
    requires ValidTiles(cards)
    ensures SuitSizes(cards) == Counts(multiset(cards))
  {
    if cards == [] {
      NoTiles(multiset(cards));
    } else {
      var rest, last := cards[..|cards| - 1], cards[|cards| - 1];
      assert cards == rest + [last];
      assert multiset(cards) == multiset(rest) + multiset{last};
      ValidSizes(rest);
      OneMoreSize(rest, last);
      OneMoreTile(multiset(rest), last);
      assert forall j | 0 <= j < 4 :: SuitSizes(cards)[j] == Counts(multiset(cards))[j];
    }
  }

  // ----- trying tiles

  /** A wild card may become any tile of suit `suit`, with value below `max`. */
  datatype Slot = Slot(suit: int, max: int)

  function SlotFor(j: int): Slot {
    Slot(j + 1, if j + 1 == Z then 8 else 10)
  }

  /** One slot for each tile lacking, in suit order. */
  function Slots(needs: seq<int>, j: nat): seq<Slot>
    requires |needs| == 4
    decreases 4 - j, if j < 4 then needs[j] else 0
  {
    if j >= 4 then []
    else if needs[j] <= 0 then Slots(needs, j + 1)
    else [SlotFor(j)] + Slots(needs[j := needs[j] - 1], j)
  }

  ghost predicate Fills(fill: seq<Tile>, slots: seq<Slot>) {
    |fill| == |slots| &&
    forall i | 0 <= i < |fill| :: fill[i].suit == slots[i].suit && 1 <= fill[i].value < slots[i].max
  }

  ghost predicate Completes(hand: multiset<Tile>, fill: seq<Tile>, slots: seq<Slot>) {
    Fills(fill, slots) && Wins(hand + multiset(fill))
  }

  ghost predicate TableSlots(slots: seq<Slot>) {
    forall s | s in slots :: exists j :: 0 <= j < 4 && s == SlotFor(j)
  }

  /** Some choice for the slots that begins with `prefix` makes the hand win. */
  ghost predicate Extends(hand: multiset<Tile>, slots: seq<Slot>, prefix: seq<Tile>) {
    exists fill :: Completes(hand, fill, slots) && prefix <= fill
  }

  lemma ExtendsFull(hand: multiset<Tile>, slots: seq<Slot>, fill: seq<Tile>)
    requires Fills(fill, slots)
    ensures Extends(hand, slots, fill) <==> Wins(hand + multiset(fill))
  {
    if Wins(hand + multiset(fill)) {
      assert Completes(hand, fill, slots);
    }
    if Extends(hand, slots, fill) {
      var more: seq<Tile> :| Completes(hand, more, slots) && fill <= more;
      assert more == fill;
    }
  }

  lemma ExtendsNothing(hand: multiset<Tile>, slots: seq<Slot>)
    ensures Extends(hand, slots, []) <==> exists fill :: Completes(hand, fill, slots)
  {
    if fill: seq<Tile> :| Completes(hand, fill, slots) {
      assert [] <= fill;
    }
  }

  lemma ExtendsStep(hand: multiset<Tile>, slots: seq<Slot>, prefix: seq<Tile>)
    requires |prefix| < |slots|
    ensures Extends(hand, slots, prefix) <==>
      exists x :: 1 <= x < slots[|prefix|].max && Extends(hand, slots, prefix + [Tile(slots[|prefix|].suit, x)])
  {
    var s := slots[|prefix|];
    if Extends(hand, slots, prefix) {
      var fill: seq<Tile> :| Completes(hand, fill, slots) && prefix <= fill;
      var x := fill[|prefix|].value;
      assert prefix + [Tile(s.suit, x)] <= fill;
      assert Extends(hand, slots, prefix + [Tile(s.suit, x)]);
    }
    if x :| 1 <= x < s.max && Extends(hand, slots, prefix + [Tile(s.suit, x)]) {
      var fill: seq<Tile> :| Completes(hand, fill, slots) && prefix + [Tile(s.suit, x)] <= fill;
      assert prefix <= fill;
    }
  }

  lemma FillIsValid(fill: seq<Tile>, slots: seq<Slot>)
    requires TableSlots(slots) && Fills(fill, slots)
    ensures ValidTiles(fill)
  {
    forall i | 0 <= i < |fill| ensures ValidTile(fill[i]) {
      assert slots[i] in slots;
    }
  }

  /** The nested loops over tile values, one level for each slot: level `pos` overwrites
      `wildCards[pos]` with every tile of its slot. */
  method TryFrom(noWildCards: seq<Tile>, slots: seq<Slot>, wildCards: array<Tile>, pos: nat) returns (isHu: bool)
    requires ValidTiles(noWildCards) && TableSlots(slots)
    requires pos <= |slots| == wildCards.Length
    requires forall i | 0 <= i < pos :: wildCards[i].suit == slots[i].suit && 1 <= wildCards[i].value < slots[i].max
    modifies wildCards
    ensures wildCards[..pos] == old(wildCards[..pos])
    ensures isHu <==> Extends(multiset(noWildCards), slots, old(wildCards[..pos]))
    decreases |slots| - pos
  {
    ghost var hand, prefix := multiset(noWildCards), wildCards[..pos];
    if pos == |slots| {
      assert wildCards[..] == prefix;
      FillIsValid(prefix, slots);
      ExtendsFull(hand, slots, prefix);
      WildJudgesAgree(noWildCards, prefix);
      isHu := AnaWild3NP2CardsOpt2(noWildCards, wildCards[..]);
      return;
    }
    ExtendsStep(hand, slots, prefix);
    var x := 1;
    while x < slots[pos].max
      invariant 1 <= x
      invariant wildCards[..pos] == prefix
      invariant forall y | 1 <= y < x :: !Extends(hand, slots, prefix + [Tile(slots[pos].suit, y)])
    {
      wildCards[pos] := Tile(slots[pos].suit, x);
      assert wildCards[..pos + 1] == prefix + [Tile(slots[pos].suit, x)];
      isHu := TryFrom(noWildCards, slots, wildCards, pos + 1);
      assert wildCards[..pos] == wildCards[..pos + 1][..pos] == prefix;
      if isHu {
        return;
      }
      x := x + 1;
    }
    isHu := false;
  }

  lemma {:induction false} SlotsIgnore(needs: seq<int>, i: nat, x: int, j: nat)
    requires |needs| == 4 && i < j && i < 4
    ensures Slots(needs[i := x], j) == Slots(needs, j)
    decreases 4 - j, if j < 4 then needs[j] else 0
  {
    if j < 4 {
      if needs[j] <= 0 {
        SlotsIgnore(needs, i, x, j + 1);
      } else {
        SlotsIgnore(needs[j := needs[j] - 1], i, x, j);
        assert needs[i := x][j := needs[j] - 1] == needs[j := needs[j] - 1][i := x];
      }
    }
  }

  method SuitCards(menAna: seq<int>, i: nat) returns (cards: seq<Slot>)
    requires |menAna| == 4 && i < 4
    ensures Slots(menAna, i) == cards + Slots(menAna, i + 1)
  {
    cards := [];
    var j := 0;
    ghost var rest := menAna;
    while j < menAna[i]
      invariant 0 <= j && (menAna[i] >= 0 ==> j <= menAna[i])
      invariant rest == menAna[i := menAna[i] - j]
      invariant Slots(menAna, i) == cards + Slots(rest, i)
      decreases menAna[i] - j
    {
      var max := if i + 1 == Z then 8 else 10;
      ghost var next := rest[i := rest[i] - 1];
      assert Slots(rest, i) == [SlotFor(i)] + Slots(next, i);
      cards := cards + [Slot(i + 1, max)];
      j := j + 1;
      rest := next;
    }
    SlotsIgnore(menAna, i, rest[i], i + 1);
  }

  method PossibleCards(menAna: seq<int>) returns (possibleCards: seq<Slot>)
    requires |menAna| == 4
    ensures possibleCards == Slots(menAna, 0)
  {
    possibleCards := [];
    var i := 0;
    while i < 4
      invariant 0 <= i <= 4
      invariant possibleCards + Slots(menAna, i) == Slots(menAna, 0)
    {
      var more := SuitCards(menAna, i);
      possibleCards := possibleCards + more;
      i := i + 1;
    }
  }

  lemma {:induction false} SlotsAreTable(needs: seq<int>, j: nat)
    requires |needs| == 4
    ensures TableSlots(Slots(needs, j))
    decreases 4 - j, if j < 4 then needs[j] else 0
  {
    if j < 4 {
      if needs[j] <= 0 {
        SlotsAreTable(needs, j + 1);
      } else {
        SlotsAreTable(needs[j := needs[j] - 1], j);
      }
    }
  }

  /** Tries every tile for the tiles the suits lack, when there are one to three of them. */
  method Exhaustion4Wild3NP2CardsOpt(noWildCards: seq<Tile>, menAna: seq<int>) returns (isHu: bool)
    requires ValidTiles(noWildCards) && |menAna| == 4
    ensures isHu <==>
      1 <= |Slots(menAna, 0)| <= 3 && exists fill :: Completes(multiset(noWildCards), fill, Slots(menAna, 0))
  {
    var possibleCards := PossibleCards(menAna);
    SlotsAreTable(menAna, 0);
    if 1 <= |possibleCards| <= 3 {
      var wildCards := new Tile[|possibleCards|](_ => Tile(0, 0));
      isHu := TryFrom(noWildCards, possibleCards, wildCards, 0);
      ExtendsNothing(multiset(noWildCards), possibleCards);
      assert wildCards[..0] == [];
    } else {
      isHu := false;
    }
  }

  function ThreeOf(j: int): seq<Slot> {
    [SlotFor(j), SlotFor(j), SlotFor(j)]
  }

  /** Tries every three tiles of one suit, for each suit. */
  method ExhaustionAllZeroWild3NP2CardsOpt(noWildCards: seq<Tile>) returns (isHu: bool)
    requires ValidTiles(noWildCards)
    ensures isHu <==> exists j, fill :: 0 <= j < 4 && Completes(multiset(noWildCards), fill, ThreeOf(j))
  {
    ghost var hand := multiset(noWildCards);
    var j := 0;
    while j < 4
      invariant 0 <= j <= 4
      invariant forall k, fill | 0 <= k < j :: !Completes(hand, fill, ThreeOf(k))
    {
      var wildCards := new Tile[3](_ => Tile(0, 0));
      isHu := TryFrom(noWildCards, ThreeOf(j), wildCards, 0);
      ExtendsNothing(hand, ThreeOf(j));
      assert wildCards[..0] == [];
      if isHu {
        return;
      }
      j := j + 1;
    }
    return false;
  }

  predicate AllZero(needs: seq<int>) {
    forall j | 0 <= j < |needs| :: needs[j] == 0
  }

  /** Pair suit `i + 1` is kept by the pruning and the search for it succeeds. */
  ghost predicate FoundFor(hand: multiset<Tile>, needs: seq<int>) {
    && |needs| == 4
    && if AllZero(needs)
       then exists j, fill :: 0 <= j < 4 && Completes(hand, fill, ThreeOf(j))
       else 1 <= |Slots(needs, 0)| <= 3 && exists fill :: Completes(hand, fill, Slots(needs, 0))
  }

  predicate Listed(menAna: seq<seq<int>>, k: int, zero: bool) {
    0 <= k < |menAna| && |menAna[k]| == 4 && (AllZero(menAna[k]) <==> zero)
  }

  /** Searches each pair suit the pruning kept: first those that lack tiles, then those
      that lack none and get three tiles of one suit. */
  method Ana3NP2WildMenCardsOpt(noWildCards: seq<Tile>, wildNum: int, menAna: seq<seq<int>>) returns (isHu: bool)
    requires ValidTiles(noWildCards) && |menAna| == 4
    ensures isHu <==> wildNum != 0 && exists k :: 0 <= k < 4 && FoundFor(multiset(noWildCards), menAna[k])
  {
    ghost var hand := multiset(noWildCards);
    if wildNum == 0 {
      return false;
    }
    var allZeroIndex, normalIndex := [], [];
    var k := 0;
    while k < 4
      invariant 0 <= k <= 4
      invariant forall m | 0 <= m < |allZeroIndex| :: Listed(menAna, allZeroIndex[m], true)
      invariant forall m | 0 <= m < |normalIndex| :: Listed(menAna, normalIndex[m], false)
      invariant forall m | 0 <= m < k && |menAna[m]| == 4 :: m in allZeroIndex || m in normalIndex
    {
      if |menAna[k]| == 4 {
        if menAna[k][0] == 0 && menAna[k][1] == 0 && menAna[k][2] == 0 && menAna[k][3] == 0 {
          allZeroIndex := allZeroIndex + [k];
        } else {
          normalIndex := normalIndex + [k];
        }
      }
      k := k + 1;
    }
    var i := 0;
    while i < |normalIndex|
      invariant 0 <= i <= |normalIndex|
      invariant forall m | 0 <= m < i ::
        Listed(menAna, normalIndex[m], false) && !FoundFor(hand, menAna[normalIndex[m]])
    {
      isHu := Exhaustion4Wild3NP2CardsOpt(noWildCards, menAna[normalIndex[i]]);
      assert Listed(menAna, normalIndex[i], false);
      if isHu {
        assert FoundFor(hand, menAna[normalIndex[i]]);
        return;
      }
      i := i + 1;
    }
    i := 0;
    while i < |allZeroIndex|
      invariant 0 <= i <= |allZeroIndex|
      invariant forall m | 0 <= m < i ::
        Listed(menAna, allZeroIndex[m], true) && !FoundFor(hand, menAna[allZeroIndex[m]])
    {
      isHu := ExhaustionAllZeroWild3NP2CardsOpt(noWildCards);
      assert Listed(menAna, allZeroIndex[i], true);
      if isHu {
        assert FoundFor(hand, menAna[allZeroIndex[i]]);
        return;
      }
      i := i + 1;
    }
    return false;
  }

  // ----- what the search decides

  /** The least positive number of tiles that brings `n` tiles to 3m + 2. */
  function Missing(n: nat): int {
    if n % 3 == 1 then 1 else if n % 3 == 0 then 2 else 3
  }

  predicate SameSuit(fill: seq<Tile>) {
    forall t, u | t in fill && u in fill :: t.suit == u.suit
  }

  /** `fill` is a choice of tiles that completes the hand to the winning shape. */
  ghost predicate Winning(noWildCards: seq<Tile>, fill: seq<Tile>) {
    ValidTiles(fill) && Wins(multiset(noWildCards) + multiset(fill))
  }

  /** The answer of the search, for any number of wild cards: the least number of tiles
      that can complete the hand does so, and either there are that many wild cards or the
      tiles are three of one suit. */
  ghost predicate Verdict(noWildCards: seq<Tile>, wildNum: int) {
    && wildNum >= 1
    && exists fill ::
         && Winning(noWildCards, fill)
         && |fill| == Missing(|noWildCards|)
         && (|fill| <= wildNum || (|fill| == 3 && SameSuit(fill)))
  }

  /** What the search is for: some choice of tiles for all the wild cards wins. */
  ghost predicate CanWin(noWildCards: seq<Tile>, wildNum: nat) {
    exists fill :: Winning(noWildCards, fill) && |fill| == wildNum
  }

  lemma CompletedSize(noWildCards: seq<Tile>, fill: seq<Tile>)
    requires Winning(noWildCards, fill)
    ensures (|noWildCards| + |fill|) % 3 == 2
  {
    WinningSize(multiset(noWildCards) + multiset(fill));
    assert |multiset(noWildCards) + multiset(fill)| == |noWildCards| + |fill|;
  }

  /** With one to three wild cards and a total of 3m + 2 tiles the search is sound and
      complete: the pruning and the three-of-one-suit case lose nothing. */
  lemma SearchIsExact(noWildCards: seq<Tile>, wildNum: nat)
    requires 1 <= wildNum <= 3 && (|noWildCards| + wildNum) % 3 == 2
    ensures Verdict(noWildCards, wildNum) <==> CanWin(noWildCards, wildNum)
  {
    assert Missing(|noWildCards|) == wildNum;
  }

  lemma {:induction false} SuitPrefixSum(a: multiset<Tile>, b: multiset<Tile>, s: int, n: nat)
    ensures SuitPrefix(a + b, s, n) == SuitPrefix(a, s, n) + SuitPrefix(b, s, n)
  {
    if n > 0 {
      SuitPrefixSum(a, b, s, n - 1);
    }
  }

  function AllSuits(m: multiset<Tile>): nat {
    InSuit(m, 0) + InSuit(m, 1) + InSuit(m, 2) + InSuit(m, 3)
  }

  lemma AllSuitsAdd(m: multiset<Tile>, t: Tile)
    requires ValidTile(t)
    ensures AllSuits(m + multiset{t}) == AllSuits(m) + 1
  {
    OneMoreTile(m, t);
  }

  /** The four suits hold all the tiles. */
  lemma {:induction false} SuitsHoldAll(ts: seq<Tile>)
    requires ValidTiles(ts)
    ensures AllSuits(multiset(ts)) == |ts|
  {
    if ts == [] {
      NoTiles(multiset(ts));
    } else {
      var last := ts[|ts| - 1];
      var rest := ts[..|ts| - 1];
      assert ts == rest + [last];
      assert multiset(ts) == multiset(rest) + multiset{last};
      SuitsHoldAll(rest);
      AllSuitsAdd(multiset(rest), last);
    }
  }

  lemma ThePair(p: Partition, hand: multiset<Tile>) returns (pair: Tile)
    requires IsPartition(p, hand) && ValidHand(hand) && |p.pairs| == 1
    ensures p.pairs == multiset{pair} && ValidTile(pair)
  {
    pair :| pair in p.pairs;
    assert |p.pairs - multiset{pair}| == 0;
    GroupsAreValid(p, hand);
  }

  lemma ResidueAt(p: Partition, hand: multiset<Tile>, more: multiset<Tile>, pair: Tile, j: int)
    requires IsPartition(p, hand + more) && ValidHand(hand + more) && p.pairs == multiset{pair}
    ensures (InSuit(hand, j) + InSuit(more, j)) % 3 == if j == pair.suit - 1 then 2 else 0
  {
    SuitPrefixSum(hand, more, j + 1, 9);
    SuitResidues(p, hand + more, pair, j + 1);
  }

  /** In the completed hand one suit has remainder 2 and the others 0. */
  lemma PairSuitOf(hand: multiset<Tile>, more: multiset<Tile>) returns (i: nat)
    requires ValidHand(hand + more) && Wins(hand + more)
    ensures i < 4 && forall j | 0 <= j < 4 :: (InSuit(hand, j) + InSuit(more, j)) % 3 == if j == i then 2 else 0
  {
    var p :| IsPartition(p, hand + more) && |p.pairs| == 1;
    var pair := ThePair(p, hand + more);
    i := pair.suit - 1;
    forall j | 0 <= j < 4 ensures (InSuit(hand, j) + InSuit(more, j)) % 3 == if j == i then 2 else 0 {
      ResidueAt(p, hand, more, pair, j);
    }
  }

  lemma Lack(size: nat, added: nat, need: int, residue: int)
    requires (size + added) % 3 == residue && (residue == 0 || residue == 2)
    requires need == if residue == 2 then NumToBe3NPlus2(size) else NumToBe3N(size)
    ensures added >= need && (added - need) % 3 == 0
  {
  }

  predicate OneCount(counts: seq<int>)
    requires |counts| == 4
  {
    counts == [3, 0, 0, 0] || counts == [0, 3, 0, 0] || counts == [0, 0, 3, 0] || counts == [0, 0, 0, 3]
  }

  lemma FourCounts(counts: seq<int>, needs: seq<int>)
    requires |counts| == |needs| == 4
    requires forall j | 0 <= j < 4 :: counts[j] >= needs[j] >= 0 && (counts[j] - needs[j]) % 3 == 0
    requires Total(counts) <= 3
    ensures counts == needs || (AllZero(needs) && Total(counts) == 3 && OneCount(counts))
  {
    assert counts[0] >= needs[0] && counts[1] >= needs[1] && counts[2] >= needs[2] && counts[3] >= needs[3];
    if j :| 0 <= j < 4 && counts[j] != needs[j] {
      assert counts[j] >= needs[j] + 3;
      assert counts[j] == 3;
    }
  }

  lemma LackedTiles(hand: multiset<Tile>, more: multiset<Tile>, i: nat)
    requires i < 4 && forall j | 0 <= j < 4 :: (InSuit(hand, j) + InSuit(more, j)) % 3 == if j == i then 2 else 0
    requires AllSuits(more) <= 3
    ensures var needs := Needs(hand, i);
      Counts(more) == needs || (AllZero(needs) && AllSuits(more) == 3 && OneCount(Counts(more)))
  {
    var counts, needs := Counts(more), Needs(hand, i);
    forall j | 0 <= j < 4 ensures counts[j] >= needs[j] >= 0 && (counts[j] - needs[j]) % 3 == 0 {
      Lack(InSuit(hand, j), InSuit(more, j), needs[j], if j == i then 2 else 0);
    }
    FourCounts(counts, needs);
  }

  lemma {:induction false} SuitPrefixHas(m: multiset<Tile>, t: Tile, n: nat)
    requires t in m && 1 <= t.value <= n
    ensures SuitPrefix(m, t.suit, n) > 0
  {
    if t.value < n {
      SuitPrefixHas(m, t, n - 1);
    }
  }

  lemma OneSuitOnly(fill: seq<Tile>)
    requires ValidTiles(fill) && OneCount(Counts(multiset(fill)))
    ensures SameSuit(fill)
  {
    var counts := Counts(multiset(fill));
    forall t | t in fill ensures counts[t.suit - 1] > 0 {
      SuitPrefixHas(multiset(fill), t, 9);
    }
  }

  /** The counting argument behind the pruning: a completion of the least size takes from
      each suit exactly what the suit lacks for some pair suit, or is three tiles of one
      suit when no suit lacks any. */
  lemma FillMatchesNeeds(noWildCards: seq<Tile>, fill: seq<Tile>) returns (i: nat)
    requires ValidTiles(noWildCards) && Winning(noWildCards, fill) && |fill| == Missing(|noWildCards|)
    ensures i < 4
    ensures
      || Counts(multiset(fill)) == Needs(multiset(noWildCards), i)
      || (AllZero(Needs(multiset(noWildCards), i)) && |fill| == 3 && SameSuit(fill))
  {
    var hand, more := multiset(noWildCards), multiset(fill);
    i := PairSuitOf(hand, more);
    SuitsHoldAll(noWildCards);
    SuitsHoldAll(fill);
    LackedTiles(hand, more, i);
    if Counts(more) != Needs(hand, i) {
      OneSuitOnly(fill);
    }
  }

  // ----- slots and completions

  function TotalFrom(needs: seq<int>, j: nat): int
    requires |needs| == 4
    decreases 4 - j
  {
    if j >= 4 then 0 else needs[j] + TotalFrom(needs, j + 1)
  }

  lemma {:induction false} TotalFromIgnores(needs: seq<int>, i: nat, x: int, j: nat)
    requires |needs| == 4 && i < j && i < 4
    ensures TotalFrom(needs[i := x], j) == TotalFrom(needs, j)
    decreases 4 - j
  {
    if j < 4 {
      TotalFromIgnores(needs, i, x, j + 1);
    }
  }

  lemma {:induction false} SlotsLength(needs: seq<int>, j: nat)
    requires |needs| == 4 && forall k | 0 <= k < 4 :: needs[k] >= 0
    ensures |Slots(needs, j)| == TotalFrom(needs, j)
    decreases 4 - j, if j < 4 then needs[j] else 0
  {
    if j < 4 {
      if needs[j] <= 0 {
        SlotsLength(needs, j + 1);
      } else {
        SlotsLength(needs[j := needs[j] - 1], j);
        TotalFromIgnores(needs, j, needs[j] - 1, j + 1);
      }
    }
  }

  lemma NeedsTotal(hand: multiset<Tile>, i: nat)
    requires i < 4
    ensures |Slots(Needs(hand, i), 0)| == Total(Needs(hand, i))
  {
    var needs := Needs(hand, i);
    SlotsLength(needs, 0);
    assert TotalFrom(needs, 3) == needs[3] + TotalFrom(needs, 4);
    assert TotalFrom(needs, 2) == needs[2] + TotalFrom(needs, 3);
    assert TotalFrom(needs, 1) == needs[1] + TotalFrom(needs, 2);
  }

  lemma FillsCons(fill: seq<Tile>, slots: seq<Slot>, slot: Slot)
    requires fill != [] && Fills(fill[1..], slots)
    requires fill[0].suit == slot.suit && 1 <= fill[0].value < slot.max
    ensures Fills(fill, [slot] + slots)
  {
    forall i | 1 <= i < |fill|
      ensures fill[i].suit == ([slot] + slots)[i].suit && 1 <= fill[i].value < ([slot] + slots)[i].max
    {
      assert fill[i] == fill[1..][i - 1];
    }
  }

  lemma DropFirst(fill: seq<Tile>)
    requires Sorted(fill) && ValidTiles(fill) && fill != []
    ensures Sorted(fill[1..]) && ValidTiles(fill[1..])
    ensures forall k | 0 <= k < 4 ::
      InSuit(multiset(fill), k) == InSuit(multiset(fill[1..]), k) + if k == fill[0].suit - 1 then 1 else 0
  {
    var rest := fill[1..];
    assert fill == [fill[0]] + rest;
    assert multiset(fill) == multiset(rest) + multiset{fill[0]};
    OneMoreTile(multiset(rest), fill[0]);
  }

  lemma SuitOfFirst(fill: seq<Tile>)
    requires ValidTiles(fill) && fill != []
    ensures fill[0] in fill && fill[0].suit <= 4
  {
  }

  lemma {:induction false} SuitPrefixFind(m: multiset<Tile>, s: int, n: nat) returns (t: Tile)
    requires SuitPrefix(m, s, n) > 0
    ensures t in m && t.suit == s
  {
    if m[Tile(s, n)] > 0 {
      t := Tile(s, n);
    } else {
      t := SuitPrefixFind(m, s, n - 1);
    }
  }

  lemma FirstFits(fill: seq<Tile>, need: int, j: nat)
    requires Sorted(fill) && ValidTiles(fill) && j < 4 && need > 0
    requires forall t | t in fill :: t.suit > j
    requires InSuit(multiset(fill), j) == need
    ensures fill != [] && fill[0].suit == j + 1 && fill[0] in fill
  {
    var t := SuitPrefixFind(multiset(fill), j + 1, 9);
    assert t in fill;
    var i :| 0 <= i < |fill| && fill[i] == t;
    assert i > 0 ==> !Less(fill[i], fill[0]);
  }

  /** A sorted choice of tiles with the right number in each suit fits the slots in order. */
  lemma {:induction false} OrderedFits(fill: seq<Tile>, needs: seq<int>, j: nat)
    requires |needs| == 4 && Sorted(fill) && ValidTiles(fill)
    requires forall t | t in fill :: t.suit > j
    requires forall k | j <= k < 4 :: InSuit(multiset(fill), k) == needs[k]
    ensures Fills(fill, Slots(needs, j))
    decreases 4 - j, if j < 4 then needs[j] else 0
  {
    if j >= 4 {
      if fill != [] {
        SuitOfFirst(fill);
        assert false;
      }
    } else if needs[j] <= 0 {
      forall t | t in fill ensures t.suit > j + 1 {
        if t.suit == j + 1 { SuitPrefixHas(multiset(fill), t, 9); }
      }
      OrderedFits(fill, needs, j + 1);
    } else {
      FirstFits(fill, needs[j], j);
      DropFirst(fill);
      var less := needs[j := needs[j] - 1];
      OrderedFits(fill[1..], less, j);
      FillsCons(fill, Slots(less, j), SlotFor(j));
    }
  }

  // ----- the search decides the verdict

  lemma CompletionSize(noWildCards: seq<Tile>, fill: seq<Tile>)
    requires Winning(noWildCards, fill) && 1 <= |fill| <= 3
    ensures |fill| == Missing(|noWildCards|)
  {
    CompletedSize(noWildCards, fill);
  }

  /** What is kept for a pair suit of a hand of valid tiles. */
  lemma KeptNeeds(noWildCards: seq<Tile>, wildNum: int, k: nat)
    requires ValidTiles(noWildCards) && k < 4
    ensures var needs := Needs(multiset(noWildCards), k);
      && |needs| == 4
      && Kept(SuitSizes(noWildCards), wildNum, k) == if wildNum != 0 && Total(needs) <= wildNum then needs else []
  {
    ValidSizes(noWildCards);
  }

  lemma TripleIsVerdict(noWildCards: seq<Tile>, wildNum: int, j: int, fill: seq<Tile>)
    requires wildNum >= 1 && 0 <= j < 4 && Completes(multiset(noWildCards), fill, ThreeOf(j))
    ensures Verdict(noWildCards, wildNum)
  {
    FillIsValid(fill, ThreeOf(j));
    CompletionSize(noWildCards, fill);
    assert Winning(noWildCards, fill) && |fill| == 3 && SameSuit(fill);
  }

  lemma FillIsVerdict(noWildCards: seq<Tile>, wildNum: int, needs: seq<int>, fill: seq<Tile>)
    requires |needs| == 4 && 1 <= |Slots(needs, 0)| <= 3 && |Slots(needs, 0)| <= wildNum
    requires Completes(multiset(noWildCards), fill, Slots(needs, 0))
    ensures Verdict(noWildCards, wildNum)
  {
    SlotsAreTable(needs, 0);
    FillIsValid(fill, Slots(needs, 0));
    CompletionSize(noWildCards, fill);
    assert Winning(noWildCards, fill) && |fill| <= wildNum;
  }

  lemma FoundIsVerdict(noWildCards: seq<Tile>, wildNum: int, k: nat)
    requires ValidTiles(noWildCards) && wildNum != 0 && k < 4
    requires FoundFor(multiset(noWildCards), Kept(SuitSizes(noWildCards), wildNum, k))
    ensures Verdict(noWildCards, wildNum)
  {
    var hand := multiset(noWildCards);
    var needs := Needs(hand, k);
    NeedsTotal(hand, k);
    KeptNeeds(noWildCards, wildNum, k);
    if AllZero(needs) {
      var j: int, fill: seq<Tile> :| 0 <= j < 4 && Completes(hand, fill, ThreeOf(j));
      TripleIsVerdict(noWildCards, wildNum, j, fill);
    } else {
      var fill: seq<Tile> :| Completes(hand, fill, Slots(needs, 0));
      FillIsVerdict(noWildCards, wildNum, needs, fill);
    }
  }

  lemma OrderedCompletes(noWildCards: seq<Tile>, fill: seq<Tile>, needs: seq<int>)
    requires Winning(noWildCards, fill) && |needs| == 4 && Counts(multiset(fill)) == needs
    ensures Completes(multiset(noWildCards), Ordered(fill), Slots(needs, 0))
  {
    InsertAllTiles([], fill);
    assert multiset(Ordered(fill)) == multiset(fill);
    forall t | t in Ordered(fill) ensures ValidTile(t) && t.suit > 0 {
      assert t in multiset(Ordered(fill));
      assert t in fill;
    }
    var counts := Counts(multiset(fill));
    assert forall k | 0 <= k < 4 :: InSuit(multiset(fill), k) == counts[k];
    OrderedFits(Ordered(fill), needs, 0);
  }

  lemma TripleCompletes(noWildCards: seq<Tile>, fill: seq<Tile>)
    requires Winning(noWildCards, fill) && |fill| == 3 && SameSuit(fill)
    ensures exists j, f :: 0 <= j < 4 && Completes(multiset(noWildCards), f, ThreeOf(j))
  {
    assert fill[0] in fill && fill[1] in fill && fill[2] in fill;
    assert Completes(multiset(noWildCards), fill, ThreeOf(fill[0].suit - 1));
  }

  /** Three tiles of one suit are more than a single suit ever lacks. */
  lemma SameSuitCount(fill: seq<Tile>)
    requires ValidTiles(fill) && |fill| == 3 && SameSuit(fill)
    ensures exists j :: 0 <= j < 4 && Counts(multiset(fill))[j] == 3
  {
    var m, j := multiset(fill), fill[0].suit - 1;
    assert fill[0] in fill;
    SuitsHoldAll(fill);
    forall k | 0 <= k < 4 && k != j ensures InSuit(m, k) == 0 {
      if InSuit(m, k) > 0 {
        var t := SuitPrefixFind(m, k + 1, 9);
        assert false;
      }
    }
    assert Counts(m)[j] == 3;
  }

  /** The search for the right pair suit finds a least completion. */
  lemma FillIsFound(noWildCards: seq<Tile>, fill: seq<Tile>, k: nat)
    requires Winning(noWildCards, fill) && |fill| == Missing(|noWildCards|) && k < 4
    requires var needs := Needs(multiset(noWildCards), k);
      Counts(multiset(fill)) == needs || (AllZero(needs) && |fill| == 3 && SameSuit(fill))
    ensures var needs := Needs(multiset(noWildCards), k);
      FoundFor(multiset(noWildCards), needs) && (AllZero(needs) || Total(needs) == |fill|)
  {
    var needs := Needs(multiset(noWildCards), k);
    NeedsTotal(multiset(noWildCards), k);
    SuitsHoldAll(fill);
    if Counts(multiset(fill)) == needs {
      assert Total(needs) == |fill|;
      OrderedCompletes(noWildCards, fill, needs);
    } else {
      TripleCompletes(noWildCards, fill);
    }
  }

  lemma VerdictIsFound(noWildCards: seq<Tile>, wildNum: int) returns (k: nat)
    requires ValidTiles(noWildCards) && Verdict(noWildCards, wildNum)
    ensures k < 4 && FoundFor(multiset(noWildCards), Kept(SuitSizes(noWildCards), wildNum, k))
  {
    var fill: seq<Tile> :| Winning(noWildCards, fill) && |fill| == Missing(|noWildCards|) &&
      (|fill| <= wildNum || (|fill| == 3 && SameSuit(fill)));
    k := FillMatchesNeeds(noWildCards, fill);
    KeptNeeds(noWildCards, wildNum, k);
    FillIsFound(noWildCards, fill, k);
    var needs := Needs(multiset(noWildCards), k);
    if !AllZero(needs) && |fill| > wildNum {
      SameSuitCount(fill);
      assert false;
    }
  }

  /** The search succeeds for some pair suit that the pruning keeps. */
  ghost predicate SomeFound(noWildCards: seq<Tile>, wildNum: int) {
    && wildNum != 0
    && exists k :: 0 <= k < 4 && FoundFor(multiset(noWildCards), Kept(SuitSizes(noWildCards), wildNum, k))
  }

  lemma SearchIsVerdict(noWildCards: seq<Tile>, wildNum: int)
    requires ValidTiles(noWildCards)
    ensures SomeFound(noWildCards, wildNum) <==> Verdict(noWildCards, wildNum)
  {
    if k :| wildNum != 0 && 0 <= k < 4 && FoundFor(multiset(noWildCards), Kept(SuitSizes(noWildCards), wildNum, k)) {
      FoundIsVerdict(noWildCards, wildNum, k);
    }
    if Verdict(noWildCards, wildNum) {
      var k := VerdictIsFound(noWildCards, wildNum);
    }
  }

  /** The search with `wildNum` wild cards besides `noWildCards`. */
  method Analyze3NP2WildCards(noWildCards: seq<Tile>, wildNum: int) returns (isHu: bool)
    requires ValidTiles(noWildCards)
    ensures isHu <==> Verdict(noWildCards, wildNum)
  {
    var menAnaRes := PreAna3NP2WildCards(noWildCards, wildNum);
    SearchIsVerdict(noWildCards, wildNum);
    isHu := Ana3NP2WildMenCardsOpt(noWildCards, wildNum, menAnaRes);
  }
}
