/** The seven-pairs shape. */
module SevenPairs {
  import opened Tiles

  /** Fourteen tiles, every tile an even number of times. */
  ghost predicate IsSevenPairs(hand: multiset<Tile>) {
    |hand| == 14 && forall t :: hand[t] % 2 == 0
  }

  /** Neighbours taken two by two are equal. */
  predicate PairedUp(ts: seq<Tile>) {
    ts == [] || (|ts| >= 2 && ts[0] == ts[1] && PairedUp(ts[2..]))
  }

  lemma {:induction false} PairedUpAt(ts: seq<Tile>, i: nat)
    requires i <= |ts| && i % 2 == 0 && forall k | 0 <= k < i && k % 2 == 0 :: k + 1 < |ts| && ts[k] == ts[k + 1]
    ensures PairedUp(ts) <==> PairedUp(ts[i..])
  {
    if i > 0 {
      assert ts[0] == ts[1];
      forall k | 0 <= k < i - 2 && k % 2 == 0 ensures k + 1 < |ts[2..]| && ts[2..][k] == ts[2..][k + 1] {
        assert ts[k + 2] == ts[k + 3];
      }
      PairedUpAt(ts[2..], i - 2);
      assert ts[2..][i - 2..] == ts[i..];
    } else {
      assert ts[0..] == ts;
    }
  }

  method Is7Dui(ts: seq<Tile>) returns (r: bool)
    ensures r <==> |ts| == 14 && PairedUp(ts)
  {
    r := false;
    if |ts| == 14 {
      var duiCount := 0;
      var i := 0;
      while i < |ts|
        invariant 0 <= i <= |ts| && i == 2 * duiCount
        invariant forall k | 0 <= k < i && k % 2 == 0 :: ts[k] == ts[k + 1]
      {
        if ts[i] == ts[i + 1] {
          duiCount := duiCount + 1;
          i := i + 2;
        } else {
          PairedUpAt(ts, i);
          assert ts[i..][0] == ts[i] && ts[i..][1] == ts[i + 1];
          break;
        }
      }
      if duiCount == 7 {
        PairedUpAt(ts, 14);
        r := true;
      }
    }
  }
}
