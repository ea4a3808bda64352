/** One suit of the count table: a row of ten numbers, column 0 holding the total and
    columns 1 to 9 the number of tiles of each value. The lemmas here justify each branch
    of the greedy test: taking a triplet, or else a run, at the lowest tile never loses a
    solution. */
module SuitRows {

  /** Total of columns 1 to `n`. */
  function Sum(row: seq<int>, n: nat): int
    requires n < |row|
  {
    if n == 0 then 0 else Sum(row, n - 1) + row[n]
  }

  ghost predicate IsRow(row: seq<int>) {
    && |row| == 10
    && (forall v | 0 <= v < 10 :: row[v] >= 0)
    && row[0] == Sum(row, 9)
  }

  function At(s: seq<nat>, v: int): nat {
    if 0 <= v < |s| then s[v] else 0
  }

  /** The columns are used up by `triplets[v]` triplets of value v and `runs[v]` runs
      starting at v; honours have no runs. */
  ghost predicate MeldedBy(honour: bool, row: seq<int>, runs: seq<nat>, triplets: seq<nat>)
    requires |row| == 10
  {
    && |runs| == |triplets| == 10
    && triplets[0] == runs[0] == runs[8] == runs[9] == 0
    && (honour ==> forall v | 0 <= v < 10 :: runs[v] == 0)
    && (forall v {:trigger row[v]} {:trigger triplets[v]} | 1 <= v < 10 ::
          row[v] == 3 * triplets[v] + runs[v] + At(runs, v - 1) + At(runs, v - 2))
  }

  ghost predicate Meldable(honour: bool, row: seq<int>)
    requires |row| == 10
  {
    exists runs, triplets :: MeldedBy(honour, row, runs, triplets)
  }

  /** The row with `n` tiles of value `v` removed, the total adjusted. */
  function Without(row: seq<int>, v: int, n: int): seq<int>
    requires |row| == 10 && 1 <= v < 10
  {
    row[0 := row[0] - n][v := row[v] - n]
  }

  function WithoutRun(row: seq<int>, v: int): seq<int>
    requires |row| == 10 && 1 <= v < 8
  {
    Without(Without(Without(row, v, 1), v + 1, 1), v + 2, 1)
  }

  ghost predicate Lowest(row: seq<int>, i: int)
    requires |row| == 10
  {
    1 <= i < 10 && row[i] > 0 && forall v | 1 <= v < i :: row[v] == 0
  }

  lemma {:induction false} SumUpdate(row: seq<int>, v: nat, x: int, n: nat)
    requires v < |row| && n < |row|
    ensures Sum(row[v := x], n) == Sum(row, n) + if 1 <= v <= n then x - row[v] else 0
  {
    if n > 0 {
      SumUpdate(row, v, x, n - 1);
    }
  }

  lemma {:induction false} SumBounds(row: seq<int>, v: nat, n: nat)
    requires n < |row| && forall k | 1 <= k <= n :: row[k] >= 0
    ensures Sum(row, n) >= 0
    ensures 1 <= v <= n ==> Sum(row, n) >= row[v]
  {
    if n > 0 {
      SumBounds(row, v, n - 1);
    }
  }

  lemma WithoutIsRow(row: seq<int>, v: int, n: nat)
    requires IsRow(row) && 1 <= v < 10 && n <= row[v]
    ensures IsRow(Without(row, v, n))
  {
    SumUpdate(row, 0, row[0] - n, 9);
    SumUpdate(row[0 := row[0] - n], v, row[v] - n, 9);
    SumBounds(row, v, 9);
  }

  lemma WithoutRunIsRow(row: seq<int>, v: int)
    requires IsRow(row) && 1 <= v < 8 && row[v] > 0 && row[v + 1] > 0 && row[v + 2] > 0
    ensures IsRow(WithoutRun(row, v))
  {
    WithoutIsRow(row, v, 1);
    WithoutIsRow(Without(row, v, 1), v + 1, 1);
    WithoutIsRow(Without(Without(row, v, 1), v + 1, 1), v + 2, 1);
  }

  /** A row that is not empty has a tile somewhere in columns 1 to 9. */
  lemma {:induction false} SumZero(row: seq<int>, n: nat)
    requires n < |row| && forall k | 1 <= k <= n :: row[k] == 0
    ensures Sum(row, n) == 0
  {
    if n > 0 {
      SumZero(row, n - 1);
    }
  }

  lemma {:induction false} SumZeroAll(row: seq<int>, n: nat)
    requires n < |row| && Sum(row, n) == 0 && forall k | 1 <= k <= n :: row[k] >= 0
    ensures forall k | 1 <= k <= n :: row[k] == 0
  {
    if n > 0 {
      SumBounds(row, 0, n - 1);
      SumZeroAll(row, n - 1);
    }
  }

  lemma EmptyRow(honour: bool, row: seq<int>)
    requires IsRow(row) && row[0] == 0
    ensures Meldable(honour, row)
  {
    SumZeroAll(row, 9);
    assert MeldedBy(honour, row, seq(10, _ => 0), seq(10, _ => 0));
  }

  /** Only a triplet or a run starting there can use the lowest tile. */
  lemma LowestStart(honour: bool, row: seq<int>, i: int, runs: seq<nat>, triplets: seq<nat>)
    requires |row| == 10 && Lowest(row, i) && MeldedBy(honour, row, runs, triplets)
    ensures row[i] == 3 * triplets[i] + runs[i]
  {
    assert i > 1 ==> row[i - 1] == 0;
    assert i > 2 ==> row[i - 2] == 0;
  }

  /** With three or more copies of the lowest tile, a triplet can always be taken first:
      if no triplet starts there then at least three runs do, and three equal runs are
      three triplets. */
  lemma TripletFirst(honour: bool, row: seq<int>, i: int)
    requires |row| == 10 && Lowest(row, i) && row[i] >= 3
    ensures Meldable(honour, row) <==> Meldable(honour, Without(row, i, 3))
  {
    if Meldable(honour, row) {
      var runs: seq<nat>, triplets: seq<nat> :| MeldedBy(honour, row, runs, triplets);
      LowestStart(honour, row, i, runs, triplets);
      if triplets[i] > 0 {
        assert MeldedBy(honour, Without(row, i, 3), runs, triplets[i := triplets[i] - 1]);
      } else {
        var triplets' := triplets[i + 1 := triplets[i + 1] + 1][i + 2 := triplets[i + 2] + 1];
        assert MeldedBy(honour, Without(row, i, 3), runs[i := runs[i] - 3], triplets');
      }
    }
    if Meldable(honour, Without(row, i, 3)) {
      var runs: seq<nat>, triplets: seq<nat> :| MeldedBy(honour, Without(row, i, 3), runs, triplets);
      assert MeldedBy(honour, row, runs, triplets[i := triplets[i] + 1]);
    }
  }

  /** With one or two copies of the lowest tile only a run can use it. */
  lemma RunFirst(honour: bool, row: seq<int>, i: int)
    requires |row| == 10 && Lowest(row, i) && row[i] < 3
    ensures Meldable(honour, row) <==>
      !honour && i < 8 && row[i + 1] > 0 && row[i + 2] > 0 && Meldable(honour, WithoutRun(row, i))
  {
    if Meldable(honour, row) {
      var runs: seq<nat>, triplets: seq<nat> :| MeldedBy(honour, row, runs, triplets);
      LowestStart(honour, row, i, runs, triplets);
      assert runs[i] > 0;
      assert row[i + 1] > 0 && row[i + 2] > 0;
      assert MeldedBy(honour, WithoutRun(row, i), runs[i := runs[i] - 1], triplets);
    }
    if !honour && i < 8 && row[i + 1] > 0 && row[i + 2] > 0 && Meldable(honour, WithoutRun(row, i)) {
      var runs: seq<nat>, triplets: seq<nat> :| MeldedBy(honour, WithoutRun(row, i), runs, triplets);
      assert MeldedBy(honour, row, runs[i := runs[i] + 1], triplets);
    }
  }

  lemma {:induction false} MeldedSum(honour: bool, row: seq<int>, runs: seq<nat>, triplets: seq<nat>, n: nat)
    requires |row| == 10 && n < 10 && MeldedBy(honour, row, runs, triplets)
    ensures Sum(row, n) == 3 * Sum(triplets, n) + Sum(runs, n) +
      (if n >= 1 then Sum(runs, n - 1) else 0) + (if n >= 2 then Sum(runs, n - 2) else 0)
  {
    if n > 0 {
      MeldedSum(honour, row, runs, triplets, n - 1);
      assert row[n] == 3 * triplets[n] + runs[n] + At(runs, n - 1) + At(runs, n - 2);
    }
  }

  /** Runs and triplets use tiles three at a time. */
  lemma MeldableResidue(honour: bool, row: seq<int>)
    requires |row| == 10 && Meldable(honour, row)
    ensures Sum(row, 9) % 3 == 0
  {
    var runs: seq<nat>, triplets: seq<nat> :| MeldedBy(honour, row, runs, triplets);
    MeldedSum(honour, row, runs, triplets, 9);
    assert Sum(runs, 9) == Sum(runs, 8) == Sum(runs, 7);
  }
}
