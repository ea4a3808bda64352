/** Exactly which users share a group, and when those are all the users that close pairs link. */
module GpsComponents {
  import opened Counting
  import opened Gps

  /** A close pair, as the loops compare it. */
  datatype Pair = Pair(u: Uid, v: Uid, d: real)

  function PairAt(data: seq<User>, dist: Distance, i: nat, j: nat): Pair
    requires i < |data| && j < |data|
  {
    Pair(data[i].uid, data[j].uid, dist(data[i], data[j]))
  }

  /** The close pairs of user `k` with the users from `j` on, in order. */
  function RowPairs(data: seq<User>, dist: Distance, threshold: real, k: nat, j: nat): seq<Pair>
    decreases |data| - j
  {
    if j >= |data| then []
    else
      var rest := RowPairs(data, dist, threshold, k, j + 1);
      if ClosePair(data, dist, threshold, k, j) then [PairAt(data, dist, k, j)] + rest else rest
  }

  /** The close pairs of the users from `k` on with later ones, in the order of the loops. */
  function Pairs(data: seq<User>, dist: Distance, threshold: real, k: nat): seq<Pair>
    decreases |data| - k
  {
    if k >= |data| then []
    else RowPairs(data, dist, threshold, k, k + 1) + Pairs(data, dist, threshold, k + 1)
  }

  /** The groups after the pairs `ps`. */
  function Apply(gs: seq<Group>, ps: seq<Pair>): seq<Group>
    decreases |ps|
  {
    if ps == [] then gs else Apply(Grown(gs, ps[0].u, ps[0].v, ps[0].d), ps[1..])
  }

  lemma {:induction false} ApplyConcat(gs: seq<Group>, ps: seq<Pair>, qs: seq<Pair>)
    ensures Apply(gs, ps + qs) == Apply(Apply(gs, ps), qs)
    decreases |ps|
  {
    if ps == [] {
      assert ps + qs == qs;
    } else {
      assert (ps + qs)[1..] == ps[1..] + qs;
      ApplyConcat(Grown(gs, ps[0].u, ps[0].v, ps[0].d), ps[1..], qs);
    }
  }

  lemma {:induction false} RowIsApply(
    data: seq<User>, dist: Distance, threshold: real, k: nat, j: nat, gs: seq<Group>)
    ensures Row(data, dist, threshold, k, j, gs) == Apply(gs, RowPairs(data, dist, threshold, k, j))
    decreases |data| - j
  {
    if j < |data| {
      RowIsApply(data, dist, threshold, k, j + 1, After(data, dist, threshold, k, j, gs));
    }
  }

  /** The nested loops treat the close pairs one after the other. */
  lemma {:induction false} RowsIsApply(data: seq<User>, dist: Distance, threshold: real, k: nat, gs: seq<Group>)
    ensures Rows(data, dist, threshold, k, gs) == Apply(gs, Pairs(data, dist, threshold, k))
    decreases |data| - k
  {
    if k < |data| {
      var row := RowPairs(data, dist, threshold, k, k + 1);
      RowIsApply(data, dist, threshold, k, k + 1, gs);
      RowsIsApply(data, dist, threshold, k + 1, Apply(gs, row));
      ApplyConcat(gs, row, Pairs(data, dist, threshold, k + 1));
    }
  }

  // ----- how a group spreads

  /** The users of a group after one pair: both, if it held one of them. */
  function Reach(g: set<Uid>, p: Pair): set<Uid> {
    if p.u in g || p.v in g then g + {p.u, p.v} else g
  }

  /** The users of a group after the pairs `ps`. */
  function Spread(ps: seq<Pair>, g: set<Uid>): set<Uid>
    decreases |ps|
  {
    if ps == [] then g else Spread(ps[1..], Reach(g, ps[0]))
  }

  /** Both users are in what the group spreads to. */
  predicate Both(ps: seq<Pair>, g: set<Uid>, a: Uid, b: Uid) {
    a in Spread(ps, g) && b in Spread(ps, g)
  }

  lemma {:induction false} SpreadMonotone(ps: seq<Pair>, g: set<Uid>, h: set<Uid>)
    requires g <= h
    ensures g <= Spread(ps, g) <= Spread(ps, h)
    decreases |ps|
  {
    if ps != [] {
      SpreadMonotone(ps[1..], Reach(g, ps[0]), Reach(h, ps[0]));
    }
  }

  lemma {:induction false} SpreadConcat(ps: seq<Pair>, qs: seq<Pair>, g: set<Uid>)
    ensures Spread(ps + qs, g) == Spread(qs, Spread(ps, g))
    decreases |ps|
  {
    if ps == [] {
      assert ps + qs == qs;
    } else {
      assert (ps + qs)[1..] == ps[1..] + qs;
      SpreadConcat(ps[1..], qs, Reach(g, ps[0]));
    }
  }

  /** The pair at position `t` starts a group that spreads to both users. */
  predicate StartsWith(ps: seq<Pair>, t: nat, a: Uid, b: Uid)
    requires t < |ps|
  {
    Both(ps[t + 1..], {ps[t].u, ps[t].v}, a, b)
  }

  /** Some group spreads to both users. */
  ghost predicate FromGroup(gs: seq<Group>, ps: seq<Pair>, a: Uid, b: Uid) {
    exists g | g in gs :: Both(ps, g.Keys, a, b)
  }

  ghost predicate FromPair(ps: seq<Pair>, a: Uid, b: Uid) {
    exists t | 0 <= t < |ps| :: StartsWith(ps, t, a, b)
  }

  lemma JoinedReaches(g: Group, p: Pair)
    ensures Joined(g, p.u, p.v, p.d).Keys == Reach(g.Keys, p)
  {
  }

  lemma NewGroupKeys(p: Pair)
    ensures PairMap(p.u, p.v, p.d).Keys == {p.u, p.v}
  {
  }

  /** The groups after a pair: the old ones spread, and new ones that hold just the pair. */
  lemma GrownGroup(gs: seq<Group>, p: Pair, k: nat)
    requires k < |Grown(gs, p.u, p.v, p.d)|
    ensures Grown(gs, p.u, p.v, p.d)[k].Keys == if k < |gs| then Reach(gs[k].Keys, p) else {p.u, p.v}
  {
    if k < |gs| {
      JoinedReaches(gs[k], p);
    } else {
      NewGroupKeys(p);
    }
  }

  lemma GrownToGroup(gs: seq<Group>, ps: seq<Pair>, a: Uid, b: Uid)
    requires ps != [] && FromGroup(Grown(gs, ps[0].u, ps[0].v, ps[0].d), ps[1..], a, b)
    ensures FromGroup(gs, ps, a, b) || StartsWith(ps, 0, a, b)
  {
    var all := Grown(gs, ps[0].u, ps[0].v, ps[0].d);
    var k :| 0 <= k < |all| && Both(ps[1..], all[k].Keys, a, b);
    GrownGroup(gs, ps[0], k);
    if k < |gs| {
      assert gs[k] in gs && Both(ps, gs[k].Keys, a, b);
    }
  }

  lemma GroupToGrown(gs: seq<Group>, ps: seq<Pair>, a: Uid, b: Uid)
    requires ps != [] && FromGroup(gs, ps, a, b)
    ensures FromGroup(Grown(gs, ps[0].u, ps[0].v, ps[0].d), ps[1..], a, b)
  {
    var all := Grown(gs, ps[0].u, ps[0].v, ps[0].d);
    var k :| 0 <= k < |gs| && Both(ps, gs[k].Keys, a, b);
    GrownGroup(gs, ps[0], k);
    assert all[k] in all && Both(ps[1..], all[k].Keys, a, b);
  }

  /** When a pair adds no group of its own, every group already touches it and takes it in. */
  lemma PairToGrown(gs: seq<Group>, ps: seq<Pair>, a: Uid, b: Uid)
    requires ps != [] && StartsWith(ps, 0, a, b)
    ensures FromGroup(Grown(gs, ps[0].u, ps[0].v, ps[0].d), ps[1..], a, b)
  {
    var p := ps[0];
    var all := Grown(gs, p.u, p.v, p.d);
    var k := if |all| > |gs| then |gs| else 0;
    if |all| == |gs| {
      CountZero(gs, Apart(p.u, p.v));
      assert !Apart(p.u, p.v)(gs[0]);
    }
    GrownGroup(gs, p, k);
    SpreadMonotone(ps[1..], {p.u, p.v}, all[k].Keys);
    assert all[k] in all && Both(ps[1..], all[k].Keys, a, b);
  }

  lemma LaterPairs(ps: seq<Pair>, a: Uid, b: Uid)
    requires ps != []
    ensures FromPair(ps, a, b) <==> StartsWith(ps, 0, a, b) || FromPair(ps[1..], a, b)
  {
    if t :| 0 <= t < |ps| && StartsWith(ps, t, a, b) {
      if t > 0 {
        assert ps[1..][t - 1..][1..] == ps[t + 1..] && StartsWith(ps[1..], t - 1, a, b);
      }
    }
    if t :| 0 <= t < |ps[1..]| && StartsWith(ps[1..], t, a, b) {
      assert ps[1..][t + 1..] == ps[t + 2..] && StartsWith(ps, t + 1, a, b);
    }
  }

  lemma {:induction false} ApplyCovers(gs: seq<Group>, ps: seq<Pair>, a: Uid, b: Uid)
    ensures Covered(Apply(gs, ps), a, b) <==> FromGroup(gs, ps, a, b) || FromPair(ps, a, b)
    decreases |ps|
  {
    if ps == [] {
      assert forall g: Group :: Both(ps, g.Keys, a, b) <==> a in g && b in g;
    } else {
      var all := Grown(gs, ps[0].u, ps[0].v, ps[0].d);
      ApplyCovers(all, ps[1..], a, b);
      if FromGroup(all, ps[1..], a, b) {
        GrownToGroup(gs, ps, a, b);
      }
      if FromGroup(gs, ps, a, b) {
        GroupToGrown(gs, ps, a, b);
      }
      LaterPairs(ps, a, b);
      if StartsWith(ps, 0, a, b) {
        PairToGrown(gs, ps, a, b);
      }
    }
  }

  /** Exactly the users share a group to which some close pair spreads: beginning with its two
      users, and going on through the pairs compared after it, in their order, a pair that
      touches what was reached adds both its users. */
  lemma CoveredIffSpread(data: seq<User>, dist: Distance, threshold: real, a: Uid, b: Uid)
    ensures Covered(Rows(data, dist, threshold, 0, []), a, b) <==> FromPair(Pairs(data, dist, threshold, 0), a, b)
  {
    RowsIsApply(data, dist, threshold, 0, []);
    ApplyCovers([], Pairs(data, dist, threshold, 0), a, b);
  }

  // ----- when linked users share a group

  function Users(data: seq<User>): set<Uid> {
    set i | 0 <= i < |data| :: data[i].uid
  }

  /** The user at position `j` is linked with `a` through close pairs. */
  ghost predicate Of(data: seq<User>, dist: Distance, threshold: real, a: Uid, j: int) {
    0 <= j < |data| && Linked(data, dist, threshold, Users(data), a, data[j].uid)
  }

  /** Position `j` is close to an earlier one. */
  predicate HasEarlier(data: seq<User>, dist: Distance, threshold: real, j: int) {
    exists i | 0 <= i < j :: ClosePair(data, dist, threshold, i, j)
  }

  /** Everybody linked with an earlier user is close to an earlier user. */
  ghost predicate Chained(data: seq<User>, dist: Distance, threshold: real) {
    forall i, j | 0 <= i < j < |data| && Of(data, dist, threshold, data[i].uid, j) ::
      HasEarlier(data, dist, threshold, j)
  }

  lemma LinkedBack(data: seq<User>, dist: Distance, threshold: real, within: set<Uid>, a: Uid, b: Uid)
    requires Linked(data, dist, threshold, within, a, b)
    ensures Linked(data, dist, threshold, within, b, a)
  {
    var p :| Path(data, dist, threshold, within, p) && p[0] == a && p[|p| - 1] == b;
    var q := seq(|p|, i requires 0 <= i < |p| => p[|p| - 1 - i]);
    forall k | 0 <= k < |q| - 1 ensures Close(data, dist, threshold, q[k], q[k + 1]) {
      var i := |p| - 2 - k;
      assert q[k] == p[i + 1] && q[k + 1] == p[i];
      assert Close(data, dist, threshold, p[i], p[i + 1]);
    }
    assert Path(data, dist, threshold, within, q);
  }

  /** Both ends of a close pair are linked with the same users. */
  lemma PairLinks(data: seq<User>, dist: Distance, threshold: real, a: Uid, i: int, j: int)
    requires ClosePair(data, dist, threshold, i, j)
    ensures Of(data, dist, threshold, a, i) <==> Of(data, dist, threshold, a, j)
  {
    var u, v := data[i].uid, data[j].uid;
    assert Close(data, dist, threshold, u, v);
    LinkedEnds(data, dist, threshold, Users(data), u, v);
    if Of(data, dist, threshold, a, i) {
      LinkedJoin(data, dist, threshold, Users(data), a, u, v);
    }
    if Of(data, dist, threshold, a, j) {
      LinkedJoin(data, dist, threshold, Users(data), a, v, u);
    }
  }

  lemma {:induction false} FirstOf(data: seq<User>, dist: Distance, threshold: real, a: Uid, n: int) returns (f: int)
    requires Of(data, dist, threshold, a, n)
    ensures f <= n && Of(data, dist, threshold, a, f) && forall j | 0 <= j < f :: !Of(data, dist, threshold, a, j)
    decreases n
  {
    if j :| 0 <= j < n && Of(data, dist, threshold, a, j) {
      f := FirstOf(data, dist, threshold, a, j);
    } else {
      f := n;
    }
  }

  /** All but the first of those linked with `a` are close to an earlier one of them. */
  lemma EarlierOf(data: seq<User>, dist: Distance, threshold: real, a: Uid, f: int, j: int) returns (i: int)
    requires Chained(data, dist, threshold) && f < j
    requires Of(data, dist, threshold, a, f) && Of(data, dist, threshold, a, j)
    requires forall k | 0 <= k < f :: !Of(data, dist, threshold, a, k)
    ensures f <= i < j && ClosePair(data, dist, threshold, i, j)
  {
    LinkedBack(data, dist, threshold, Users(data), a, data[f].uid);
    LinkedJoin(data, dist, threshold, Users(data), data[f].uid, a, data[j].uid);
    assert Of(data, dist, threshold, data[f].uid, j);
    assert HasEarlier(data, dist, threshold, j);
    i :| 0 <= i < j && ClosePair(data, dist, threshold, i, j);
    PairLinks(data, dist, threshold, a, i, j);
  }

  lemma {:induction false} RowPosition(data: seq<User>, dist: Distance, threshold: real, k: nat, j: nat, m: nat)
    returns (t: nat)
    requires j <= m && ClosePair(data, dist, threshold, k, m)
    ensures var ps := RowPairs(data, dist, threshold, k, j);
      && t < |ps| && ps[t] == PairAt(data, dist, k, m)
      && ps[t + 1..] == RowPairs(data, dist, threshold, k, m + 1)
    decreases m - j
  {
    if j == m {
      t := 0;
    } else {
      t := RowPosition(data, dist, threshold, k, j + 1, m);
      if ClosePair(data, dist, threshold, k, j) {
        t := t + 1;
      }
    }
  }

  lemma InFirstPart(ps: seq<Pair>, qs: seq<Pair>, t: nat)
    requires t < |ps|
    ensures (ps + qs)[t] == ps[t] && (ps + qs)[t + 1..] == ps[t + 1..] + qs
  {
  }

  lemma InLaterPart(ps: seq<Pair>, qs: seq<Pair>, t: nat)
    requires t < |qs|
    ensures (ps + qs)[|ps| + t] == qs[t] && (ps + qs)[|ps| + t + 1..] == qs[t + 1..]
  {
  }

  /** Where a close pair stands among all of them, and what comes after it. */
  lemma {:induction false} PairPosition(data: seq<User>, dist: Distance, threshold: real, k: nat, i: nat, m: nat)
    returns (t: nat)
    requires k <= i && ClosePair(data, dist, threshold, i, m)
    ensures var ps := Pairs(data, dist, threshold, k);
      && t < |ps| && ps[t] == PairAt(data, dist, i, m)
      && ps[t + 1..] == RowPairs(data, dist, threshold, i, m + 1) + Pairs(data, dist, threshold, i + 1)
    decreases i - k
  {
    var row := RowPairs(data, dist, threshold, k, k + 1);
    if k == i {
      t := RowPosition(data, dist, threshold, k, k + 1, m);
      InFirstPart(row, Pairs(data, dist, threshold, k + 1), t);
    } else {
      t := PairPosition(data, dist, threshold, k + 1, i, m);
      InLaterPart(row, Pairs(data, dist, threshold, k + 1), t);
      t := |row| + t;
    }
  }

  /** The row of a user the group holds takes in all later users close to it. */
  lemma {:induction false} RowTakes(
    data: seq<User>, dist: Distance, threshold: real, k: nat, j: nat, g: set<Uid>, m: nat)
    requires j <= m && ClosePair(data, dist, threshold, k, m) && data[k].uid in g
    ensures data[m].uid in Spread(RowPairs(data, dist, threshold, k, j), g)
    decreases m - j
  {
    var rest := RowPairs(data, dist, threshold, k, j + 1);
    if j == m {
      var h := Reach(g, PairAt(data, dist, k, j));
      assert RowPairs(data, dist, threshold, k, j)[1..] == rest;
      SpreadMonotone(rest, h, h);
    } else if ClosePair(data, dist, threshold, k, j) {
      assert RowPairs(data, dist, threshold, k, j)[1..] == rest;
      RowTakes(data, dist, threshold, k, j + 1, Reach(g, PairAt(data, dist, k, j)), m);
    } else {
      RowTakes(data, dist, threshold, k, j + 1, g, m);
    }
  }

  /** The group holds the first of those linked with `a`, and all that are close to one of them
      before position `k`. */
  ghost predicate Upto(data: seq<User>, dist: Distance, threshold: real, a: Uid, f: int, k: int, g: set<Uid>) {
    && 0 <= f < |data| && data[f].uid in g
    && forall i, m | f <= i < k && ClosePair(data, dist, threshold, i, m) && Of(data, dist, threshold, a, m) ::
         data[m].uid in g
  }

  ghost predicate First(data: seq<User>, dist: Distance, threshold: real, a: Uid, f: int) {
    Of(data, dist, threshold, a, f) && forall j | 0 <= j < f :: !Of(data, dist, threshold, a, j)
  }

  lemma RowUpto(data: seq<User>, dist: Distance, threshold: real, a: Uid, f: int, k: nat, g: set<Uid>)
    requires Chained(data, dist, threshold) && First(data, dist, threshold, a, f) && f < k < |data|
    requires Upto(data, dist, threshold, a, f, k, g)
    ensures Upto(data, dist, threshold, a, f, k + 1, Spread(RowPairs(data, dist, threshold, k, k + 1), g))
  {
    var ps := RowPairs(data, dist, threshold, k, k + 1);
    SpreadMonotone(ps, g, g);
    forall m | ClosePair(data, dist, threshold, k, m) && Of(data, dist, threshold, a, m)
      ensures data[m].uid in Spread(ps, g)
    {
      PairLinks(data, dist, threshold, a, k, m);
      var i := EarlierOf(data, dist, threshold, a, f, k);
      RowTakes(data, dist, threshold, k, k + 1, g, m);
    }
  }

  lemma {:induction false} RowsUpto(
    data: seq<User>, dist: Distance, threshold: real, a: Uid, f: int, k: nat, g: set<Uid>)
    requires Chained(data, dist, threshold) && First(data, dist, threshold, a, f) && f < k <= |data|
    requires Upto(data, dist, threshold, a, f, k, g)
    ensures Upto(data, dist, threshold, a, f, |data|, Spread(Pairs(data, dist, threshold, k), g))
    decreases |data| - k
  {
    if k < |data| {
      var row := RowPairs(data, dist, threshold, k, k + 1);
      RowUpto(data, dist, threshold, a, f, k, g);
      RowsUpto(data, dist, threshold, a, f, k + 1, Spread(row, g));
      SpreadConcat(row, Pairs(data, dist, threshold, k + 1), g);
    }
  }

  /** The first pair of the first user linked with `a`. */
  lemma {:induction false} FirstClose(data: seq<User>, dist: Distance, threshold: real, f: nat, n: nat) returns (m: nat)
    requires ClosePair(data, dist, threshold, f, n)
    ensures ClosePair(data, dist, threshold, f, m) && forall j | 0 <= j < m :: !ClosePair(data, dist, threshold, f, j)
    decreases n
  {
    if j :| 0 <= j < n && ClosePair(data, dist, threshold, f, j) {
      m := FirstClose(data, dist, threshold, f, j);
    } else {
      m := n;
    }
  }

  /** The group that the first close pair of the first user starts takes in everybody linked. */
  lemma FirstGroupTakesAll(data: seq<User>, dist: Distance, threshold: real, a: Uid, f: nat, m: nat) returns (t: nat)
    requires Chained(data, dist, threshold) && First(data, dist, threshold, a, f)
    requires ClosePair(data, dist, threshold, f, m) && forall j | 0 <= j < m :: !ClosePair(data, dist, threshold, f, j)
    ensures var ps := Pairs(data, dist, threshold, 0);
      t < |ps| && forall j | Of(data, dist, threshold, a, j) :: data[j].uid in Spread(ps[t + 1..], {ps[t].u, ps[t].v})
  {
    t := PairPosition(data, dist, threshold, 0, f, m);
    var g := {data[f].uid, data[m].uid};
    var row, rest := RowPairs(data, dist, threshold, f, m + 1), Pairs(data, dist, threshold, f + 1);
    var h := Spread(row, g);
    SpreadConcat(row, rest, g);
    SpreadMonotone(row, g, g);
    forall j | ClosePair(data, dist, threshold, f, j) ensures data[j].uid in h {
      if j > m {
        RowTakes(data, dist, threshold, f, m + 1, g, j);
      }
    }
    assert Upto(data, dist, threshold, a, f, f + 1, h);
    RowsUpto(data, dist, threshold, a, f, f + 1, h);
    forall j | Of(data, dist, threshold, a, j) ensures data[j].uid in Spread(rest, h) {
      if j > f {
        var i := EarlierOf(data, dist, threshold, a, f, j);
      }
    }
  }

  lemma PositionOf(data: seq<User>, dist: Distance, threshold: real, a: Uid, x: Uid) returns (j: int)
    requires Linked(data, dist, threshold, Users(data), a, x)
    ensures Of(data, dist, threshold, a, j) && data[j].uid == x
  {
    var p :| Path(data, dist, threshold, Users(data), p) && p[0] == a && p[|p| - 1] == x;
    j :| 0 <= j < |data| && data[j].uid == x;
  }

  /** The next user linked with `a` after the first is close to the first. */
  lemma {:induction false} SecondOf(data: seq<User>, dist: Distance, threshold: real, a: Uid, f: int, n: int)
    returns (j: int)
    requires Chained(data, dist, threshold) && First(data, dist, threshold, a, f)
    requires f < n && Of(data, dist, threshold, a, n)
    ensures ClosePair(data, dist, threshold, f, j)
    decreases n
  {
    var i := EarlierOf(data, dist, threshold, a, f, n);
    if i == f {
      j := n;
    } else {
      PairLinks(data, dist, threshold, a, i, n);
      j := SecondOf(data, dist, threshold, a, f, i);
    }
  }

  /** Users that share a group are linked. */
  lemma SharingIsLinked(data: seq<User>, dist: Distance, threshold: real, a: Uid, b: Uid)
    requires Covered(Rows(data, dist, threshold, 0, []), a, b)
    ensures Linked(data, dist, threshold, Users(data), a, b)
  {
    RowsSound(data, dist, threshold, 0, []);
    var g :| g in Rows(data, dist, threshold, 0, []) && a in g && b in g;
    forall x | x in g.Keys ensures x in Users(data) {
      assert CloseAt(data, dist, threshold, x, g[x]);
    }
    LinkedMore(data, dist, threshold, g.Keys, Users(data), a, b);
  }

  lemma LinkedUsersShare(data: seq<User>, dist: Distance, threshold: real, a: Uid, b: Uid)
    requires Chained(data, dist, threshold) && a != b && Linked(data, dist, threshold, Users(data), a, b)
    ensures Covered(Rows(data, dist, threshold, 0, []), a, b)
  {
    var jb := PositionOf(data, dist, threshold, a, b);
    var p :| Path(data, dist, threshold, Users(data), p) && p[0] == a && p[|p| - 1] == b;
    assert Path(data, dist, threshold, Users(data), [a]);
    var ja := PositionOf(data, dist, threshold, a, a);
    var f := FirstOf(data, dist, threshold, a, jb);
    var second := SecondOf(data, dist, threshold, a, f, if ja == f then jb else ja);
    var m := FirstClose(data, dist, threshold, f, second);
    var t := FirstGroupTakesAll(data, dist, threshold, a, f, m);
    assert StartsWith(Pairs(data, dist, threshold, 0), t, a, b);
    CoveredIffSpread(data, dist, threshold, a, b);
  }

  /** If everybody linked with an earlier user is close to an earlier user, the groups are the
      connected components: two users share one exactly if close pairs link them. */
  lemma ChainedUsersShare(data: seq<User>, dist: Distance, threshold: real, a: Uid, b: Uid)
    requires Chained(data, dist, threshold) && a != b
    ensures Covered(Rows(data, dist, threshold, 0, []), a, b) <==> Linked(data, dist, threshold, Users(data), a, b)
  {
    if Covered(Rows(data, dist, threshold, 0, []), a, b) {
      SharingIsLinked(data, dist, threshold, a, b);
    }
    if Linked(data, dist, threshold, Users(data), a, b) {
      LinkedUsersShare(data, dist, threshold, a, b);
    }
  }
}
