/** The outcomes of the splitter, one for each order of choices. */
module SplitOrders {
  import opened Tiles
  import opened Splitter
  import opened SplitTheorems

  /** What is made of the lowest tile. */
  datatype Choice = AsRun | AsTriplet | AsPair

  predicate Possible(ts: seq<Tile>, c: Choice) {
    match c
    case AsRun => StartsRun(ts)
    case AsTriplet => StartsTriplet(ts)
    case AsPair => StartsPair(ts)
  }

  function GroupOf(t: Tile, c: Choice): Result {
    match c
    case AsRun => Run(t)
    case AsTriplet => Triplet(t)
    case AsPair => Pair(t)
  }

  function RestOf(ts: seq<Tile>, c: Choice): (rest: seq<Tile>)
    requires Possible(ts, c)
    ensures |rest| < |ts|
  {
    match c
    case AsRun => WithoutRun(ts)
    case AsTriplet => ts[3..]
    case AsPair => ts[2..]
  }

  /** The choices can be made one after the other, and then none is left. */
  predicate Complete(ts: seq<Tile>, path: seq<Choice>)
    decreases |path|
  {
    if path == [] then Stuck(ts) else Possible(ts, path[0]) && Complete(RestOf(ts, path[0]), path[1..])
  }

  function OutcomeOf(ts: seq<Tile>, path: seq<Choice>): Result
    requires Complete(ts, path)
    decreases |path|
  {
    if path == [] then Result([], [], [], ts)
    else Join(GroupOf(ts[0], path[0]), OutcomeOf(RestOf(ts, path[0]), path[1..]))
  }

  /** The outcomes that begin with one choice. */
  function Branch(ts: seq<Tile>, c: Choice): seq<Result> {
    match c
    case AsRun => RunSplits(ts)
    case AsTriplet => TripletSplits(ts)
    case AsPair => PairSplits(ts)
  }

  ghost predicate Distinct(paths: seq<seq<Choice>>) {
    forall i, j | 0 <= i < j < |paths| :: paths[i] != paths[j]
  }

  ghost predicate Leads(ts: seq<Tile>, path: seq<Choice>, r: Result) {
    Complete(ts, path) && r == OutcomeOf(ts, path)
  }

  ghost predicate Lead(ts: seq<Tile>, paths: seq<seq<Choice>>, rs: seq<Result>) {
    |paths| == |rs| && forall i | 0 <= i < |paths| :: Leads(ts, paths[i], rs[i])
  }

  /** `paths` are complete orders of choices for `ts`, no two equal, and lead to the outcomes
      `rs`, one by one. */
  ghost predicate LeadTo(ts: seq<Tile>, paths: seq<seq<Choice>>, rs: seq<Result>) {
    Lead(ts, paths, rs) && Distinct(paths)
  }

  lemma OneChoice(ts: seq<Tile>, c: Choice, rest: seq<seq<Choice>>) returns (paths: seq<seq<Choice>>)
    requires Possible(ts, c) && LeadTo(RestOf(ts, c), rest, Splits(RestOf(ts, c)))
    ensures LeadTo(ts, paths, Branch(ts, c)) && |paths| == |rest|
    ensures forall i | 0 <= i < |paths| :: paths[i] == [c] + rest[i]
  {
    paths := seq(|rest|, i requires 0 <= i < |rest| => [c] + rest[i]);
    var rs := Splits(RestOf(ts, c));
    assert Branch(ts, c) == Merged(GroupOf(ts[0], c), rs);
    forall i | 0 <= i < |paths| ensures Leads(ts, paths[i], Branch(ts, c)[i]) {
      assert paths[i][1..] == rest[i] && Leads(RestOf(ts, c), rest[i], rs[i]);
    }
    forall i, j | 0 <= i < j < |paths| ensures paths[i] != paths[j] {
      assert paths[i][1..] == rest[i] && paths[j][1..] == rest[j];
    }
  }

  lemma {:induction false} BranchOrders(ts: seq<Tile>, c: Choice) returns (paths: seq<seq<Choice>>)
    ensures LeadTo(ts, paths, Branch(ts, c))
    ensures forall path | Complete(ts, path) && path != [] && path[0] == c :: path in paths
    ensures forall path | path in paths :: path != [] && path[0] == c
    decreases |ts|, 0
  {
    if !Possible(ts, c) {
      return [];
    }
    var rest := EachOrderOnce(RestOf(ts, c));
    paths := OneChoice(ts, c, rest);
    forall path | Complete(ts, path) && path != [] && path[0] == c ensures path in paths {
      assert path[1..] in rest;
      var i :| 0 <= i < |rest| && rest[i] == path[1..];
      assert paths[i] == path;
    }
  }

  lemma DistinctJoined(p: seq<seq<Choice>>, q: seq<seq<Choice>>)
    requires Distinct(p) && Distinct(q) && forall path | path in p :: path !in q
    ensures Distinct(p + q)
  {
    var all := p + q;
    forall i, j | 0 <= i < j < |all| ensures all[i] != all[j] {
      if i < |p| <= j {
        assert all[i] == p[i] && all[j] == q[j - |p|] && p[i] in p && q[j - |p|] in q;
      }
    }
  }

  lemma LeadJoined(ts: seq<Tile>, p: seq<seq<Choice>>, rs: seq<Result>, q: seq<seq<Choice>>, qs: seq<Result>)
    requires Lead(ts, p, rs) && Lead(ts, q, qs)
    ensures Lead(ts, p + q, rs + qs)
  {
    forall i | 0 <= i < |p + q| ensures Leads(ts, (p + q)[i], (rs + qs)[i]) {
      if i < |p| {
        assert Leads(ts, p[i], rs[i]);
      } else {
        assert Leads(ts, q[i - |p|], qs[i - |p|]);
      }
    }
  }

  lemma Joined(ts: seq<Tile>, p: seq<seq<Choice>>, rs: seq<Result>, q: seq<seq<Choice>>, qs: seq<Result>)
    requires LeadTo(ts, p, rs) && LeadTo(ts, q, qs) && forall path | path in p :: path !in q
    ensures LeadTo(ts, p + q, rs + qs)
  {
    LeadJoined(ts, p, rs, q, qs);
    DistinctJoined(p, q);
  }

  /** The outcomes correspond one to one to the orders in which runs, triplets and pairs can be
      taken from the lowest tile until none starts there: each order has exactly one outcome,
      the groups it takes and the rest. */
  lemma {:induction false} EachOrderOnce(ts: seq<Tile>) returns (paths: seq<seq<Choice>>)
    ensures LeadTo(ts, paths, Splits(ts))
    ensures forall path | Complete(ts, path) :: path in paths
    decreases |ts|, 1
  {
    if Stuck(ts) {
      paths := [[]];
    } else {
      var runs := BranchOrders(ts, AsRun);
      var triplets := BranchOrders(ts, AsTriplet);
      var pairs := BranchOrders(ts, AsPair);
      Joined(ts, runs, RunSplits(ts), triplets, TripletSplits(ts));
      Joined(ts, runs + triplets, RunSplits(ts) + TripletSplits(ts), pairs, PairSplits(ts));
      paths := runs + triplets + pairs;
    }
  }
}
