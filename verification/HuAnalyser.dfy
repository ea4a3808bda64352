/** The count-table analyser: it counts the hand into four suit rows, then tests the rows
    greedily, editing the table in place and undoing every edit. */
module HuAnalyser {
  import opened Tiles
  import opened SuitRows
  import opened SevenPairs

  type Table = seq<seq<int>>

  ghost predicate IsTable(table: Table) {
    |table| == 4 && forall k | 0 <= k < 4 :: IsRow(table[k])
  }

  /** Taking the pair out of column `z` of row `k` leaves only runs and triplets. */
  ghost predicate PairAt(table: Table, k: int, z: int)
    requires IsTable(table)
  {
    && 0 <= k < 4 && 1 <= z < 10
    && table[k][z] >= 2
    && Meldable(k == 3, Without(table[k], z, 2))
  }

  ghost predicate TableWins(table: Table)
    requires IsTable(table)
  {
    exists k, z :: PairAt(table, k, z) && forall j | 0 <= j < 4 && j != k :: Meldable(j == 3, table[j])
  }

  /** The table wins with the pair in row `k`. */
  ghost predicate WinsAt(table: Table, k: int)
    requires IsTable(table)
  {
    (exists z :: PairAt(table, k, z)) && forall j | 0 <= j < 4 && j != k :: Meldable(j == 3, table[j])
  }

  /** The row of a winning table that holds the pair is the only one with remainder 2, and
      no row has remainder 1. */
  lemma WinningResidues(table: Table) returns (k: int, z: int)
    requires IsTable(table) && TableWins(table)
    ensures PairAt(table, k, z)
    ensures forall j | 0 <= j < 4 && j != k :: Meldable(j == 3, table[j])
    ensures forall j | 0 <= j < 4 :: table[j][0] % 3 == if j == k then 2 else 0
  {
    k, z :| PairAt(table, k, z) && forall j | 0 <= j < 4 && j != k :: Meldable(j == 3, table[j]);
    forall j | 0 <= j < 4 ensures table[j][0] % 3 == if j == k then 2 else 0 {
      if j != k {
        MeldableResidue(j == 3, table[j]);
      } else {
        WithoutIsRow(table[k], z, 2);
        MeldableResidue(k == 3, Without(table[k], z, 2));
      }
    }
  }

  /** Column `v` of the row for suit `k + 1`; column 0 is the size of the suit. */
  function Count(hand: multiset<Tile>, k: int, v: int): nat {
    if v == 0 then SuitSize(hand, k + 1) else hand[Tile(k + 1, v)]
  }

  /** The hand counted into rows. */
  function TableOf(hand: multiset<Tile>): Table {
    seq(4, k => seq(10, v => Count(hand, k, v)))
  }

  lemma {:induction false} RowSum(hand: multiset<Tile>, k: int, n: nat)
    requires 0 <= k < 4 && n < 10
    ensures Sum(TableOf(hand)[k], n) == SuitPrefix(hand, k + 1, n)
  {
    if n > 0 {
      RowSum(hand, k, n - 1);
    }
  }

  lemma TableOfIsTable(hand: multiset<Tile>)
    ensures IsTable(TableOf(hand))
  {
    var table := TableOf(hand);
    forall k | 0 <= k < 4 ensures IsRow(table[k]) {
      RowSum(hand, k, 9);
    }
  }

  /** The tiles `Init` counts: it stops at the first one outside the table. */
  function ValidPrefix(ts: seq<Tile>): seq<Tile> {
    if ts == [] || !ValidTile(ts[0]) then [] else [ts[0]] + ValidPrefix(ts[1..])
  }

  lemma {:induction false} ValidPrefixIs(ts: seq<Tile>, i: nat)
    requires i <= |ts| && ValidTiles(ts[..i])
    requires i == |ts| || !ValidTile(ts[i])
    ensures ValidPrefix(ts) == ts[..i]
  {
    if i > 0 {
      assert ts[0] in ts[..i];
      assert ts[1..][..i - 1] == ts[..i][1..];
      ValidPrefixIs(ts[1..], i - 1);
      assert ts[..i] == [ts[0]] + ts[..i][1..];
    }
  }

  lemma {:induction false} ValidPrefixAll(ts: seq<Tile>)
    requires ValidTiles(ts)
    ensures ValidPrefix(ts) == ts
  {
    assert ts[..|ts|] == ts;
    ValidPrefixIs(ts, |ts|);
  }

  lemma {:induction false} SuitPrefixAdd(m: multiset<Tile>, t: Tile, s: int, n: nat)
    ensures SuitPrefix(m + multiset{t}, s, n) == SuitPrefix(m, s, n) + if t.suit == s && 1 <= t.value <= n then 1 else 0
  {
    if n > 0 {
      SuitPrefixAdd(m, t, s, n - 1);
      assert (m + multiset{t})[Tile(s, n)] == m[Tile(s, n)] + if t == Tile(s, n) then 1 else 0;
    }
  }

  lemma CountOneMore(m: multiset<Tile>, t: Tile)
    requires ValidTile(t)
    ensures forall k, v | 0 <= k < 4 && 0 <= v < 10 ::
      Count(m + multiset{t}, k, v) == Count(m, k, v) + if k == t.suit - 1 && (v == 0 || v == t.value) then 1 else 0
  {
    forall k, v | 0 <= k < 4 && 0 <= v < 10
      ensures Count(m + multiset{t}, k, v) ==
        Count(m, k, v) + if k == t.suit - 1 && (v == 0 || v == t.value) then 1 else 0
    {
      SuitPrefixAdd(m, t, k + 1, 9);
      assert (m + multiset{t})[Tile(k + 1, v)] == m[Tile(k + 1, v)] + if t == Tile(k + 1, v) then 1 else 0;
    }
  }

  lemma {:induction false} SuitPrefixEmpty(s: int, n: nat)
    ensures SuitPrefix(multiset{}, s, n) == 0
  {
    if n > 0 {
      SuitPrefixEmpty(s, n - 1);
    }
  }

  lemma EmptyCounts(m: multiset<Tile>)
    requires m == multiset{}
    ensures forall k, v | 0 <= k < 4 && 0 <= v < 10 :: Count(m, k, v) == 0
  {
    forall k, v | 0 <= k < 4 && 0 <= v < 10 ensures Count(m, k, v) == 0 {
      SuitPrefixEmpty(k + 1, 9);
    }
  }

  /** Once every remainder is known, only row `pos` can hold the pair. */
  lemma OnlyPairSuit(table: Table, pos: int, existed: bool)
    requires IsTable(table) && 0 <= pos < 4
    requires existed ==> table[pos][0] % 3 == 2
    requires forall j | 0 <= j < 4 && !(existed && j == pos) :: table[j][0] % 3 == 0
    ensures TableWins(table) <==> WinsAt(table, pos)
  {
    if TableWins(table) {
      var k, z := WinningResidues(table);
      assert table[k][0] % 3 == 2;
    }
  }

  /** A remainder 1, or a second remainder 2, rules the table out. */
  lemma NoPairSuit(table: Table, pos: int, existed: bool, x: int)
    requires IsTable(table) && 0 <= x < 4
    requires existed ==> 0 <= pos < x && table[pos][0] % 3 == 2
    requires table[x][0] % 3 == 1 || (existed && table[x][0] % 3 == 2)
    ensures !TableWins(table)
  {
    if TableWins(table) {
      var k, z := WinningResidues(table);
    }
  }

  lemma {:induction false} ValidPrefixIsValid(ts: seq<Tile>)
    ensures ValidTiles(ValidPrefix(ts))
  {
    if ts != [] && ValidTile(ts[0]) {
      ValidPrefixIsValid(ts[1..]);
    }
  }

  /** The runs or triplets of suit `k + 1`, by value. */
  function Column(m: multiset<Tile>, k: int): seq<nat> {
    seq(10, v => m[Tile(k + 1, v)])
  }

  lemma PartitionRow(p: Partition, hand: multiset<Tile>, pair: Tile, k: int)
    requires IsPartition(p, hand) && ValidHand(hand) && p.pairs == multiset{pair}
    requires ValidTile(pair) && 0 <= k < 4
    ensures Meldable(k == 3, if k == pair.suit - 1 then Without(TableOf(hand)[k], pair.value, 2) else TableOf(hand)[k])
  {
    GroupsAreValid(p, hand);
    var row := if k == pair.suit - 1 then Without(TableOf(hand)[k], pair.value, 2) else TableOf(hand)[k];
    var runs, triplets := Column(p.runs, k), Column(p.triplets, k);
    assert triplets[0] == runs[0] == runs[8] == runs[9] == 0;
    forall v | 1 <= v < 10 ensures row[v] == 3 * triplets[v] + runs[v] + At(runs, v - 1) + At(runs, v - 2) {
      var t := Tile(k + 1, v);
      assert hand[t] == Uses(p, t);
      assert Shift(t, -1) == Tile(k + 1, v - 1) && Shift(t, -2) == Tile(k + 1, v - 2);
      assert p.pairs[t] == if t == pair then 1 else 0;
    }
    assert MeldedBy(k == 3, row, runs, triplets);
  }

  lemma HandToTable(p: Partition, hand: multiset<Tile>)
    requires IsPartition(p, hand) && ValidHand(hand) && |p.pairs| == 1
    requires IsTable(TableOf(hand))
    ensures TableWins(TableOf(hand))
  {
    var pair :| pair in p.pairs;
    assert p.pairs == multiset{pair} by { assert |p.pairs - multiset{pair}| == 0; }
    GroupsAreValid(p, hand);
    var table := TableOf(hand);
    var k, z := pair.suit - 1, pair.value;
    forall j | 0 <= j < 4 && j != k ensures Meldable(j == 3, table[j]) {
      PartitionRow(p, hand, pair, j);
    }
    PartitionRow(p, hand, pair, k);
    assert hand[pair] == Uses(p, pair);
    assert PairAt(table, k, z);
  }

  /** Witnesses for the four rows, one after the other. */
  lemma {:induction false} RowWitnesses(rows: seq<seq<int>>, n: nat)
    returns (runs: seq<seq<nat>>, triplets: seq<seq<nat>>)
    requires n <= 4 && |rows| == 4
    requires forall k | 0 <= k < 4 :: |rows[k]| == 10 && Meldable(k == 3, rows[k])
    ensures |runs| == |triplets| == n
    ensures forall k | 0 <= k < n :: MeldedBy(k == 3, rows[k], runs[k], triplets[k])
  {
    if n == 0 {
      return [], [];
    }
    runs, triplets := RowWitnesses(rows, n - 1);
    var r: seq<nat>, t: seq<nat> :| MeldedBy(n - 1 == 3, rows[n - 1], r, t);
    runs, triplets := runs + [r], triplets + [t];
  }

  /** The tiles of suit `k + 1` with `row[v]` copies of each value v below `n`. */
  function FromRow(k: int, row: seq<nat>, n: nat): multiset<Tile>
    requires n <= |row|
  {
    if n == 0 then multiset{} else FromRow(k, row, n - 1)[Tile(k + 1, n - 1) := row[n - 1]]
  }

  function Collect(rows: seq<seq<nat>>): multiset<Tile>
    requires |rows| == 4 && forall k | 0 <= k < 4 :: |rows[k]| == 10
  {
    FromRow(0, rows[0], 10) + FromRow(1, rows[1], 10) + FromRow(2, rows[2], 10) + FromRow(3, rows[3], 10)
  }

  lemma {:induction false} FromRowAt(k: int, row: seq<nat>, n: nat, t: Tile)
    requires n <= |row|
    ensures FromRow(k, row, n)[t] == if t.suit == k + 1 && 0 <= t.value < n then row[t.value] else 0
  {
    if n > 0 {
      FromRowAt(k, row, n - 1, t);
    }
  }

  lemma CollectAt(rows: seq<seq<nat>>, t: Tile)
    requires |rows| == 4 && forall k | 0 <= k < 4 :: |rows[k]| == 10
    ensures Collect(rows)[t] == if 1 <= t.suit <= 4 && 0 <= t.value < 10 then rows[t.suit - 1][t.value] else 0
  {
    FromRowAt(0, rows[0], 10, t);
    FromRowAt(1, rows[1], 10, t);
    FromRowAt(2, rows[2], 10, t);
    FromRowAt(3, rows[3], 10, t);
  }

  /** A column without the pair's tiles. */
  lemma ColumnWithoutPair(hand: multiset<Tile>, k: int, z: int, t: Tile)
    requires 0 <= k < 4 && 1 <= z < 10 && 1 <= t.suit <= 4 && 1 <= t.value < 10
    ensures TableOf(hand)[k := Without(TableOf(hand)[k], z, 2)][t.suit - 1][t.value] +
      (if t == Tile(k + 1, z) then 2 else 0) == hand[t]
  {
  }

  lemma ColumnUses(honours: bool, row: seq<int>, runs: seq<nat>, triplets: seq<nat>, v: int)
    requires |row| == 10 && MeldedBy(honours, row, runs, triplets) && 1 <= v < 10
    ensures row[v] == 3 * At(triplets, v) + At(runs, v) + At(runs, v - 1) + At(runs, v - 2)
  {
  }

  lemma MeldsStayInside(honours: bool, row: seq<int>, runs: seq<nat>, triplets: seq<nat>, t: Tile)
    requires |row| == 10 && MeldedBy(honours, row, runs, triplets) && !(1 <= t.value < 10)
    ensures At(triplets, t.value) == At(runs, t.value) == At(runs, t.value - 1) == At(runs, t.value - 2) == 0
  {
  }

  /** What the collected groups use of a tile, column by column. */
  lemma UsesCollected(runs: seq<seq<nat>>, triplets: seq<seq<nat>>, pair: Tile, t: Tile)
    requires |runs| == |triplets| == 4 && forall k | 0 <= k < 4 :: |runs[k]| == |triplets[k]| == 10
    ensures Uses(Partition(Collect(runs), multiset{pair}, Collect(triplets)), t) ==
      (if t == pair then 2 else 0) +
      if !(1 <= t.suit <= 4) then 0
      else
        var r, v := runs[t.suit - 1], t.value;
        3 * At(triplets[t.suit - 1], v) + At(r, v) + At(r, v - 1) + At(r, v - 2)
  {
    CollectAt(runs, t);
    CollectAt(runs, Shift(t, -1));
    CollectAt(runs, Shift(t, -2));
    CollectAt(triplets, t);
    assert multiset{pair}[t] == if t == pair then 1 else 0;
  }

  lemma CollectUses(hand: multiset<Tile>, k: int, z: int, runs: seq<seq<nat>>, triplets: seq<seq<nat>>, t: Tile)
    requires ValidHand(hand) && 0 <= k < 4 && 1 <= z < 10 && TableOf(hand)[k][z] >= 2
    requires |runs| == |triplets| == 4
    requires var rows := TableOf(hand)[k := Without(TableOf(hand)[k], z, 2)];
      forall j | 0 <= j < 4 :: MeldedBy(j == 3, rows[j], runs[j], triplets[j])
    ensures hand[t] == Uses(Partition(Collect(runs), multiset{Tile(k + 1, z)}, Collect(triplets)), t)
  {
    UsesCollected(runs, triplets, Tile(k + 1, z), t);
    if 1 <= t.suit <= 4 && 1 <= t.value < 10 {
      var j := t.suit - 1;
      ColumnWithoutPair(hand, k, z, t);
      ColumnUses(j == 3, TableOf(hand)[k := Without(TableOf(hand)[k], z, 2)][j], runs[j], triplets[j], t.value);
    } else {
      assert t !in hand;
      if 1 <= t.suit <= 4 {
        var j := t.suit - 1;
        var row := TableOf(hand)[k := Without(TableOf(hand)[k], z, 2)][j];
        MeldsStayInside(j == 3, row, runs[j], triplets[j], t);
      }
    }
  }

  lemma CollectIsPartition(hand: multiset<Tile>, k: int, z: int, runs: seq<seq<nat>>, triplets: seq<seq<nat>>)
    requires ValidHand(hand) && 0 <= k < 4 && 1 <= z < 10 && TableOf(hand)[k][z] >= 2
    requires |runs| == |triplets| == 4
    requires var rows := TableOf(hand)[k := Without(TableOf(hand)[k], z, 2)];
      forall j | 0 <= j < 4 :: MeldedBy(j == 3, rows[j], runs[j], triplets[j])
    ensures Wins(hand)
  {
    var p := Partition(Collect(runs), multiset{Tile(k + 1, z)}, Collect(triplets));
    forall t ensures hand[t] == Uses(p, t) {
      CollectUses(hand, k, z, runs, triplets, t);
    }
    forall t | t in p.runs ensures t.suit != Z {
      CollectAt(runs, t);
    }
    assert IsPartition(p, hand) && |p.pairs| == 1;
  }

  lemma TableToHand(hand: multiset<Tile>)
    requires ValidHand(hand) && IsTable(TableOf(hand)) && TableWins(TableOf(hand))
    ensures Wins(hand)
  {
    var table := TableOf(hand);
    var k, z := WinningResidues(table);
    var rows := table[k := Without(table[k], z, 2)];
    var runs, triplets := RowWitnesses(rows, 4);
    CollectIsPartition(hand, k, z, runs, triplets);
  }

  /** The counted table wins exactly when the hand does. */
  lemma TableWinsIsWins(hand: multiset<Tile>)
    requires ValidHand(hand)
    ensures IsTable(TableOf(hand))
    ensures TableWins(TableOf(hand)) <==> Wins(hand)
  {
    TableOfIsTable(hand);
    if Wins(hand) {
      var p :| IsPartition(p, hand) && |p.pairs| == 1;
      HandToTable(p, hand);
    }
    if TableWins(TableOf(hand)) {
      TableToHand(hand);
    }
  }

  class HuAnalyser001 {
    const AllPai: array2<int>

    ghost predicate Shape() {
      AllPai.Length0 == 4 && AllPai.Length1 == 10
    }

    ghost function RowOf(k: int): (row: seq<int>)
      requires Shape() && 0 <= k < 4
      reads AllPai
      ensures |row| == 10 && forall v | 0 <= v < 10 :: row[v] == AllPai[k, v]
    {
      seq(10, v requires 0 <= v < 10 reads AllPai => AllPai[k, v])
    }

    ghost function Contents(): (table: Table)
      requires Shape()
      reads AllPai
    {
      [RowOf(0), RowOf(1), RowOf(2), RowOf(3)]
    }

    lemma RowIs(k: int, row: seq<int>)
      requires Shape() && 0 <= k < 4 && |row| == 10 && forall v | 0 <= v < 10 :: AllPai[k, v] == row[v]
      ensures RowOf(k) == row
    {
    }

    /** Equality of the table, entry by entry. */
    lemma ContentsAre(table: Table)
      requires Shape() && |table| == 4
      requires forall k | 0 <= k < 4 :: |table[k]| == 10 && forall v | 0 <= v < 10 :: AllPai[k, v] == table[k][v]
      ensures Contents() == table
    {
      forall k | 0 <= k < 4 ensures RowOf(k) == table[k] {}
      assert RowOf(0) == table[0];
      assert RowOf(1) == table[1];
      assert RowOf(2) == table[2];
      assert RowOf(3) == table[3];
    }

    constructor ()
      ensures Shape() && fresh(AllPai)
      ensures forall k, v | 0 <= k < 4 && 0 <= v < 10 :: AllPai[k, v] == 0
    {
      AllPai := new int[4, 10]((i, j) => 0);
    }

    /** Counts the tiles up to the first one outside the table on top of what is there. */
    method Init(ts: seq<Tile>)
      requires Shape()
      modifies AllPai
      ensures forall k, v | 0 <= k < 4 && 0 <= v < 10 ::
        AllPai[k, v] == old(AllPai[k, v]) + Count(multiset(ValidPrefix(ts)), k, v)
    {
      var i := 0;
      EmptyCounts(multiset(ts[..0]));
      while i < |ts|
        invariant 0 <= i <= |ts| && ValidTiles(ts[..i])
        invariant forall k, v | 0 <= k < 4 && 0 <= v < 10 ::
          AllPai[k, v] == old(AllPai[k, v]) + Count(multiset(ts[..i]), k, v)
      {
        var t, v := ts[i].suit, ts[i].value;
        if (W > t || t > S || 1 > v || v > 9) && (t != Z || 1 > v || v > 7) {
          ValidPrefixIs(ts, i);
          return;
        }
        CountOneMore(multiset(ts[..i]), ts[i]);
        assert ts[..i + 1] == ts[..i] + [ts[i]];
        AllPai[t - 1, v] := AllPai[t - 1, v] + 1;
        AllPai[t - 1, 0] := AllPai[t - 1, 0] + 1;
        i := i + 1;
      }
      ValidPrefixIs(ts, i);
    }

    /** The greedy test of one row: true exactly when the row can be used up by runs and
        triplets. The table is left as it was found. */
    method Split3NP2(ctype: int) returns (result: bool)
      requires Shape() && 0 <= ctype < 4 && IsRow(RowOf(ctype))
      modifies AllPai
      ensures result <==> Meldable(ctype == 3, old(RowOf(ctype)))
      ensures forall k, v | 0 <= k < 4 && 0 <= v < 10 :: AllPai[k, v] == old(AllPai[k, v])
      decreases AllPai[ctype, 0], 1
    {
      ghost var row := RowOf(ctype);
      if AllPai[ctype, 0] == 0 {
        EmptyRow(ctype == 3, row);
        return true;
      }
      var i := 1;
      while i < 10 && AllPai[ctype, i] == 0
        invariant 1 <= i <= 10
        invariant forall v | 1 <= v < i :: row[v] == 0
      {
        i := i + 1;
      }
      if i == 10 {
        SumZero(row, 9);
      }
      if AllPai[ctype, i] >= 3 {
        result := SplitAfterTriplet(ctype, i);
        return;
      }
      RunFirst(ctype == 3, row, i);
      if ctype != 3 && i < 8 && AllPai[ctype, i + 1] > 0 && AllPai[ctype, i + 2] > 0 {
        result := SplitAfterRun(ctype, i);
        return;
      }
      return false;
    }

    /** The branch of `Split3NP2` that takes a triplet at the lowest tile. */
    method SplitAfterTriplet(ctype: int, i: int) returns (result: bool)
      requires Shape() && 0 <= ctype < 4 && IsRow(RowOf(ctype))
      requires Lowest(RowOf(ctype), i) && AllPai[ctype, i] >= 3
      modifies AllPai
      ensures result <==> Meldable(ctype == 3, old(RowOf(ctype)))
      ensures forall k, v | 0 <= k < 4 && 0 <= v < 10 :: AllPai[k, v] == old(AllPai[k, v])
      decreases AllPai[ctype, 0], 0
    {
      ghost var row := RowOf(ctype);
      WithoutIsRow(row, i, 3);
      TripletFirst(ctype == 3, row, i);
      SumBounds(Without(row, i, 3), 0, 9);
      AllPai[ctype, i] := AllPai[ctype, i] - 3;
      AllPai[ctype, 0] := AllPai[ctype, 0] - 3;
      assert RowOf(ctype) == Without(row, i, 3);
      result := Split3NP2(ctype);
      AllPai[ctype, i] := AllPai[ctype, i] + 3;
      AllPai[ctype, 0] := AllPai[ctype, 0] + 3;
    }

    /** Adds `n` to the three columns of a run, and to the sum in column 0. */
    method ChangeRun(ctype: int, i: int, n: int)
      requires Shape() && 0 <= ctype < 4 && 1 <= i < 8
      modifies AllPai
      ensures forall k, v | 0 <= k < 4 && 0 <= v < 10 ::
        AllPai[k, v] == old(AllPai[k, v]) +
          if k != ctype then 0 else if v == 0 then 3 * n else if i <= v <= i + 2 then n else 0
    {
      AllPai[ctype, i] := AllPai[ctype, i] + n;
      AllPai[ctype, i + 1] := AllPai[ctype, i + 1] + n;
      AllPai[ctype, i + 2] := AllPai[ctype, i + 2] + n;
      AllPai[ctype, 0] := AllPai[ctype, 0] + 3 * n;
    }

    /** The branch of `Split3NP2` that takes a run at the lowest tile. */
    method SplitAfterRun(ctype: int, i: int) returns (result: bool)
      requires Shape() && 0 <= ctype < 4 && IsRow(RowOf(ctype)) && i < 8
      requires Lowest(RowOf(ctype), i) && AllPai[ctype, i + 1] > 0 && AllPai[ctype, i + 2] > 0
      modifies AllPai
      ensures result <==> Meldable(ctype == 3, WithoutRun(old(RowOf(ctype)), i))
      ensures forall k, v | 0 <= k < 4 && 0 <= v < 10 :: AllPai[k, v] == old(AllPai[k, v])
      decreases AllPai[ctype, 0], 0
    {
      ghost var row := RowOf(ctype);
      WithoutRunIsRow(row, i);
      SumBounds(WithoutRun(row, i), 0, 9);
      ChangeRun(ctype, i, -1);
      RowIs(ctype, WithoutRun(row, i));
      result := Split3NP2(ctype);
      ChangeRun(ctype, i, 1);
    }

    /** The scan of the remainders: which suit can hold the pair, if any. */
    method PairSuit() returns (possible: bool, jiangPos: int)
      requires Shape() && IsTable(Contents())
      ensures !possible ==> !TableWins(Contents())
      ensures possible ==> 0 <= jiangPos < 4 && (TableWins(Contents()) <==> WinsAt(Contents(), jiangPos))
    {
      ghost var table := Contents();
      var jiangExisted, x := false, 0;
      jiangPos := 0;
      while x < 4
        invariant 0 <= x <= 4
        invariant jiangExisted ==> 0 <= jiangPos < x && table[jiangPos][0] % 3 == 2
        invariant !jiangExisted ==> jiangPos == 0
        invariant forall j | 0 <= j < x && !(jiangExisted && j == jiangPos) :: table[j][0] % 3 == 0
      {
        var yuShu := AllPai[x, 0] % 3;
        if yuShu == 1 || (yuShu == 2 && jiangExisted) {
          NoPairSuit(table, jiangPos, jiangExisted, x);
          return false, jiangPos;
        }
        if yuShu == 2 {
          jiangPos, jiangExisted := x, true;
        }
        x := x + 1;
      }
      OnlyPairSuit(table, jiangPos, jiangExisted);
      return true, jiangPos;
    }

    method SplitOthers(jiangPos: int) returns (ok: bool)
      requires Shape() && IsTable(Contents()) && 0 <= jiangPos < 4
      modifies AllPai
      ensures ok <==> forall j | 0 <= j < 4 && j != jiangPos :: Meldable(j == 3, old(Contents())[j])
      ensures forall k, v | 0 <= k < 4 && 0 <= v < 10 :: AllPai[k, v] == old(AllPai[k, v])
    {
      ghost var table := Contents();
      var k := 0;
      while k < 4
        invariant 0 <= k <= 4
        invariant forall j | 0 <= j < k && j != jiangPos :: Meldable(j == 3, table[j])
        invariant IsTable(table) && forall k, v | 0 <= k < 4 && 0 <= v < 10 :: AllPai[k, v] == table[k][v]
      {
        if k != jiangPos {
          ContentsAre(table);
          ok := Split3NP2(k);
          if !ok {
            return;
          }
        }
        k := k + 1;
      }
      ok := true;
    }

    /** Takes the pair `z` out of a row, tests the rest and puts the pair back. */
    method SplitWithoutPair(ctype: int, z: int) returns (s: bool)
      requires Shape() && 0 <= ctype < 4 && IsRow(RowOf(ctype)) && 1 <= z < 10 && AllPai[ctype, z] >= 2
      modifies AllPai
      ensures s <==> Meldable(ctype == 3, Without(old(RowOf(ctype)), z, 2))
      ensures forall k, v | 0 <= k < 4 && 0 <= v < 10 :: AllPai[k, v] == old(AllPai[k, v])
    {
      ghost var row := RowOf(ctype);
      WithoutIsRow(row, z, 2);
      AllPai[ctype, z] := AllPai[ctype, z] - 2;
      AllPai[ctype, 0] := AllPai[ctype, 0] - 2;
      assert RowOf(ctype) == Without(row, z, 2);
      s := Split3NP2(ctype);
      AllPai[ctype, z] := AllPai[ctype, z] + 2;
      AllPai[ctype, 0] := AllPai[ctype, 0] + 2;
    }

    method TryPairs(jiangPos: int) returns (s: bool)
      requires Shape() && IsTable(Contents()) && 0 <= jiangPos < 4
      modifies AllPai
      ensures s <==> exists z :: PairAt(old(Contents()), jiangPos, z)
      ensures forall k, v | 0 <= k < 4 && 0 <= v < 10 :: AllPai[k, v] == old(AllPai[k, v])
    {
      ghost var table := Contents();
      s := false;
      var z := 1;
      while z < 10
        invariant 1 <= z <= 10 && !s
        invariant forall y | 1 <= y < z :: !PairAt(table, jiangPos, y)
        invariant IsTable(table) && forall k, v | 0 <= k < 4 && 0 <= v < 10 :: AllPai[k, v] == table[k][v]
      {
        if AllPai[jiangPos, z] >= 2 {
          ContentsAre(table);
          s := SplitWithoutPair(jiangPos, z);
          if s {
            assert PairAt(table, jiangPos, z);
            return;
          }
        }
        z := z + 1;
      }
    }

    /** Decides the whole table: the remainders modulo 3 leave one suit that can hold the
        pair, every other suit must split, and then each pair of that suit is tried. When
        no remainder is 2 the candidate stays suit 0 and no pair of it can succeed. */
    method FirstLevel() returns (s: bool)
      requires Shape() && IsTable(Contents())
      modifies AllPai
      ensures s <==> TableWins(old(Contents()))
      ensures forall k, v | 0 <= k < 4 && 0 <= v < 10 :: AllPai[k, v] == old(AllPai[k, v])
    {
      ghost var table := Contents();
      var possible, jiangPos := PairSuit();
      if !possible {
        return false;
      }
      var others := SplitOthers(jiangPos);
      if !others {
        return false;
      }
      ContentsAre(table);
      s := TryPairs(jiangPos);
    }

    /** Counts the hand into an empty table and decides it. */
    method Recursive3NP2(ts: seq<Tile>) returns (r: bool)
      requires Shape() && forall k, v | 0 <= k < 4 && 0 <= v < 10 :: AllPai[k, v] == 0
      modifies AllPai
      ensures r <==> Wins(multiset(ValidPrefix(ts)))
    {
      ghost var hand := multiset(ValidPrefix(ts));
      Init(ts);
      TableOfIsTable(hand);
      ContentsAre(TableOf(hand));
      r := FirstLevel();
      ValidPrefixIsValid(ts);
      TableWinsIsWins(hand);
    }

    method Split001(ts: seq<Tile>) returns (isHu: bool)
      requires Shape() && forall k, v | 0 <= k < 4 && 0 <= v < 10 :: AllPai[k, v] == 0
      modifies AllPai
      ensures isHu <==> (|ts| == 14 && PairedUp(ts)) || Wins(multiset(ValidPrefix(ts)))
    {
      var pairs := Is7Dui(ts);
      if pairs {
        return true;
      }
      isHu := Recursive3NP2(ts);
    }

    method Split002(ts: seq<Tile>) returns (isHu: bool)
      requires Shape() && forall k, v | 0 <= k < 4 && 0 <= v < 10 :: AllPai[k, v] == 0
      modifies AllPai
      ensures isHu <==> Wins(multiset(ValidPrefix(ts)))
    {
      isHu := Recursive3NP2(ts);
    }
  }
}
