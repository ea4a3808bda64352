/** Grouping users whose positions are close. The loop over the groups appends to the list
    it is scanning. Distance is a parameter. */
module Gps {
  import opened Counting

  type Uid = nat

  datatype User = User(uid: Uid, latitude: real, longitude: real)

  /** A group maps its users to the last distance recorded for them. */
  type Group = map<Uid, real>

  type Distance = (User, User) -> real

  predicate Touches(g: Group, u: Uid, v: Uid) {
    u in g || v in g
  }

  function PairMap(u: Uid, v: Uid, d: real): Group {
    map[u := d][v := d]
  }

  // ----- one close pair

  /** A group that holds one of the two users takes both; others stay as they are. */
  function Joined(g: Group, u: Uid, v: Uid, d: real): Group {
    if Touches(g, u, v) then g[u := d][v := d] else g
  }

  function JoinAll(gs: seq<Group>, u: Uid, v: Uid, d: real): seq<Group> {
    seq(|gs|, i requires 0 <= i < |gs| => Joined(gs[i], u, v, d))
  }

  function Apart(u: Uid, v: Uid): Group -> bool {
    (g: Group) => !Touches(g, u, v)
  }

  /** The groups after a close pair: besides the groups that take it, one new group for
      every group that holds neither user, or one if there was none at all. */
  function Grown(gs: seq<Group>, u: Uid, v: Uid, d: real): seq<Group> {
    JoinAll(gs, u, v, d) + seq(if gs == [] then 1 else Count(gs, Apart(u, v)), _ => PairMap(u, v, d))
  }

  /** Part of the way through the scan, `n` of the original groups have been visited. */
  function Scanned(gs: seq<Group>, n: nat, u: Uid, v: Uid, d: real): seq<Group>
    requires n <= |gs|
  {
    JoinAll(gs[..n], u, v, d) + gs[n..] + seq(Count(gs[..n], Apart(u, v)), _ => PairMap(u, v, d))
  }

  lemma ScanOne(gs: seq<Group>, n: nat, u: Uid, v: Uid, d: real)
    requires n < |gs|
    ensures var s := Scanned(gs, n, u, v, d);
      && |s| > n && s[n] == gs[n]
      && Scanned(gs, n + 1, u, v, d) ==
           s[n := Joined(gs[n], u, v, d)] + if Touches(gs[n], u, v) then [] else [PairMap(u, v, d)]
  {
    assert gs[..n + 1] == gs[..n] + [gs[n]];
    CountAppend(gs[..n], gs[n], Apart(u, v));
    assert gs[n..] == [gs[n]] + gs[n + 1..];
  }

  /** A pair map already holds both users, so visiting it changes nothing. */
  lemma ScanNew(gs: seq<Group>, i: nat, u: Uid, v: Uid, d: real)
    requires var s := Scanned(gs, |gs|, u, v, d); |gs| <= i < |s|
    ensures var s := Scanned(gs, |gs|, u, v, d);
      Touches(s[i], u, v) && s[i := Joined(s[i], u, v, d)] == s
  {
    var s := Scanned(gs, |gs|, u, v, d);
    assert gs[..|gs|] == gs && gs[|gs|..] == [];
    assert s[i] == PairMap(u, v, d);
    assert Joined(s[i], u, v, d) == s[i];
  }

  /** How many groups from `i` on hold neither user: each of them makes the list grow. */
  function Ahead(gs: seq<Group>, i: nat, u: Uid, v: Uid): nat
    requires i <= |gs|
  {
    Count(gs[i..], Apart(u, v))
  }

  lemma AheadStep(gs: seq<Group>, i: nat, u: Uid, v: Uid, extra: seq<Group>, g: Group)
    requires i < |gs| && forall k | 0 <= k < |extra| :: Touches(extra[k], u, v)
    ensures Ahead(gs[i := g] + extra, i + 1, u, v) + (if Touches(gs[i], u, v) then 0 else 1) == Ahead(gs, i, u, v)
  {
    assert gs[i..] == [gs[i]] + gs[i + 1..];
    assert (gs[i := g] + extra)[i + 1..] == gs[i + 1..] + extra;
    CountConcat(gs[i + 1..], extra, Apart(u, v));
    CountZero(extra, Apart(u, v));
  }

  /** The list after visiting position `i`. */
  function Visited(gs: seq<Group>, i: nat, u: Uid, v: Uid, d: real): seq<Group>
    requires i < |gs|
  {
    gs[i := Joined(gs[i], u, v, d)] + if Touches(gs[i], u, v) then [] else [PairMap(u, v, d)]
  }

  lemma VisitScans(gs: seq<Group>, i: nat, n: nat, u: Uid, v: Uid, d: real)
    requires n == (if i <= |gs| then i else |gs|) && i < |Scanned(gs, n, u, v, d)|
    ensures Visited(Scanned(gs, n, u, v, d), i, u, v, d) == Scanned(gs, if i < |gs| then n + 1 else n, u, v, d)
  {
    if i < |gs| {
      ScanOne(gs, i, u, v, d);
    } else {
      ScanNew(gs, i, u, v, d);
    }
  }

  lemma VisitAhead(gs: seq<Group>, i: nat, u: Uid, v: Uid, d: real)
    requires i < |gs|
    ensures Ahead(Visited(gs, i, u, v, d), i + 1, u, v) + (if Touches(gs[i], u, v) then 0 else 1) == Ahead(gs, i, u, v)
  {
    AheadStep(gs, i, u, v, if Touches(gs[i], u, v) then [] else [PairMap(u, v, d)], Joined(gs[i], u, v, d));
  }

  lemma ScanEnds(gs: seq<Group>, u: Uid, v: Uid, d: real)
    requires gs != []
    ensures Scanned(gs, 0, u, v, d) == gs && Scanned(gs, |gs|, u, v, d) == Grown(gs, u, v, d)
  {
    assert gs[..|gs|] == gs && gs[|gs|..] == [];
  }

  lemma GrownSize(gs: seq<Group>, u: Uid, v: Uid, d: real)
    ensures var all := Grown(gs, u, v, d);
      && |gs| <= |all| && (|all| > |gs| + 1 <==> Count(gs, Apart(u, v)) > 1)
      && forall k | |gs| <= k < |all| :: all[k] == PairMap(u, v, d)
  {
  }

  /** What the pair does to the groups: those that hold one of the two users hold both, at this
      distance, and nothing else about a group changes. */
  lemma GrownGroups(gs: seq<Group>, u: Uid, v: Uid, d: real)
    ensures var all := Grown(gs, u, v, d);
      && (forall g | g in all && Touches(g, u, v) :: u in g && v in g && g[u] == g[v] == d)
      && forall k | 0 <= k < |gs| ::
           all[k] - {u, v} == gs[k] - {u, v} && (Touches(all[k], u, v) <==> Touches(gs[k], u, v))
  {
  }

  /** The scan of the groups for one close pair. It ends although it appends to the list:
      every new group holds both users, so it adds no further group. More than one group is
      added exactly if at least two held neither user, and those added are equal. */
  method AddPair(similar: seq<Group>, u: Uid, v: Uid, d: real) returns (groups: seq<Group>)
    ensures groups == Grown(similar, u, v, d)
    ensures forall g | g in groups && Touches(g, u, v) :: u in g && v in g && g[u] == g[v] == d
    ensures |groups| > |similar| + 1 <==> Count(similar, Apart(u, v)) > 1
    ensures |similar| <= |groups| && forall k | |similar| <= k < |groups| :: groups[k] == PairMap(u, v, d)
    ensures forall k | 0 <= k < |similar| ::
      groups[k] - {u, v} == similar[k] - {u, v} && (Touches(groups[k], u, v) <==> Touches(similar[k], u, v))
  {
    groups := similar;
    if |groups| == 0 {
      groups := groups + [PairMap(u, v, d)];
      GrownSize(similar, u, v, d);
      GrownGroups(similar, u, v, d);
      return;
    }
    var index := 0;
    ghost var n := 0;
    ScanEnds(similar, u, v, d);
    while index < |groups|
      invariant n == (if index <= |similar| then index else |similar|)
      invariant index <= |groups| && groups == Scanned(similar, n, u, v, d)
      decreases Ahead(groups, index, u, v), |groups| - index
    {
      var gpsMap := groups[index];
      ghost var next := Visited(groups, index, u, v, d);
      VisitScans(similar, index, n, u, v, d);
      VisitAhead(groups, index, u, v, d);
      n := if index < |similar| then n + 1 else n;
      if u in gpsMap || v in gpsMap {
        groups := groups[index := gpsMap[u := d][v := d]];
      } else {
        groups := groups + [PairMap(u, v, d)];
      }
      assert groups == next;
      index := index + 1;
    }
    ScanEnds(similar, u, v, d);
    GrownSize(similar, u, v, d);
    GrownGroups(similar, u, v, d);
  }

  // ----- all pairs

  /** Positions `i` and `j` hold users that are close. */
  predicate ClosePair(data: seq<User>, dist: Distance, threshold: real, i: int, j: int) {
    0 <= i < j < |data| && dist(data[i], data[j]) * 1000.0 < threshold
  }

  /** The users `a` and `b` are close at some positions. */
  ghost predicate Close(data: seq<User>, dist: Distance, threshold: real, a: Uid, b: Uid) {
    exists i, j :: ClosePair(data, dist, threshold, i, j) &&
      ((data[i].uid == a && data[j].uid == b) || (data[i].uid == b && data[j].uid == a))
  }

  ghost predicate Path(data: seq<User>, dist: Distance, threshold: real, within: set<Uid>, p: seq<Uid>) {
    && |p| > 0
    && (forall k | 0 <= k < |p| :: p[k] in within)
    && (forall k | 0 <= k < |p| - 1 :: Close(data, dist, threshold, p[k], p[k + 1]))
  }

  /** A path of close pairs inside `within` leads from `a` to `b`. */
  ghost predicate Linked(data: seq<User>, dist: Distance, threshold: real, within: set<Uid>, a: Uid, b: Uid) {
    exists p :: Path(data, dist, threshold, within, p) && p[0] == a && p[|p| - 1] == b
  }

  ghost predicate Connected(data: seq<User>, dist: Distance, threshold: real, within: set<Uid>) {
    forall a, b | a in within && b in within :: Linked(data, dist, threshold, within, a, b)
  }

  predicate Covered(gs: seq<Group>, u: Uid, v: Uid) {
    exists g | g in gs :: u in g && v in g
  }

  lemma LinkedJoin(data: seq<User>, dist: Distance, threshold: real, within: set<Uid>, a: Uid, b: Uid, c: Uid)
    requires Linked(data, dist, threshold, within, a, b) && Linked(data, dist, threshold, within, b, c)
    ensures Linked(data, dist, threshold, within, a, c)
  {
    var p :| Path(data, dist, threshold, within, p) && p[0] == a && p[|p| - 1] == b;
    var q :| Path(data, dist, threshold, within, q) && q[0] == b && q[|q| - 1] == c;
    var r := p + q[1..];
    forall k | 0 <= k < |r| - 1 ensures Close(data, dist, threshold, r[k], r[k + 1]) {
      if k >= |p| - 1 {
        assert r[k] == q[k - (|p| - 1)] && r[k + 1] == q[k + 1 - (|p| - 1)];
      }
    }
    assert Path(data, dist, threshold, within, r);
  }

  lemma LinkedMore(data: seq<User>, dist: Distance, threshold: real, within: set<Uid>, more: set<Uid>, a: Uid, b: Uid)
    requires Linked(data, dist, threshold, within, a, b) && within <= more
    ensures Linked(data, dist, threshold, more, a, b)
  {
    var p :| Path(data, dist, threshold, within, p) && p[0] == a && p[|p| - 1] == b;
    assert Path(data, dist, threshold, more, p);
  }

  lemma LinkedEnds(data: seq<User>, dist: Distance, threshold: real, within: set<Uid>, u: Uid, v: Uid)
    requires Close(data, dist, threshold, u, v) && u in within && v in within
    ensures Linked(data, dist, threshold, within, u, v) && Linked(data, dist, threshold, within, v, u)
    ensures Linked(data, dist, threshold, within, u, u) && Linked(data, dist, threshold, within, v, v)
  {
    assert Close(data, dist, threshold, v, u);
    assert Path(data, dist, threshold, within, [u, v]) && Path(data, dist, threshold, within, [v, u]);
    assert Path(data, dist, threshold, within, [u]) && Path(data, dist, threshold, within, [v]);
  }

  /** Adding two close users to a connected group that holds one of them keeps it connected. */
  lemma JoinedConnected(data: seq<User>, dist: Distance, threshold: real, g: Group, u: Uid, v: Uid, d: real)
    requires Close(data, dist, threshold, u, v) && Touches(g, u, v) && Connected(data, dist, threshold, g.Keys)
    ensures Connected(data, dist, threshold, Joined(g, u, v, d).Keys)
  {
    var keys := Joined(g, u, v, d).Keys;
    assert keys == g.Keys + {u, v};
    LinkedEnds(data, dist, threshold, keys, u, v);
    var w := if u in g then u else v;
    forall a | a in keys
      ensures Linked(data, dist, threshold, keys, a, w) && Linked(data, dist, threshold, keys, w, a)
    {
      if a in g {
        LinkedMore(data, dist, threshold, g.Keys, keys, a, w);
        LinkedMore(data, dist, threshold, g.Keys, keys, w, a);
      }
    }
    forall a, b | a in keys && b in keys ensures Linked(data, dist, threshold, keys, a, b) {
      LinkedJoin(data, dist, threshold, keys, a, w, b);
    }
  }

  lemma PairConnected(data: seq<User>, dist: Distance, threshold: real, u: Uid, v: Uid, d: real)
    requires Close(data, dist, threshold, u, v)
    ensures Connected(data, dist, threshold, PairMap(u, v, d).Keys)
  {
    assert PairMap(u, v, d).Keys == {u, v};
    LinkedEnds(data, dist, threshold, {u, v}, u, v);
  }

  /** All groups hold close users only. */
  ghost predicate AllConnected(data: seq<User>, dist: Distance, threshold: real, gs: seq<Group>) {
    forall g | g in gs :: Connected(data, dist, threshold, g.Keys)
  }

  lemma GrownConnected(data: seq<User>, dist: Distance, threshold: real, gs: seq<Group>, u: Uid, v: Uid, d: real)
    requires Close(data, dist, threshold, u, v) && AllConnected(data, dist, threshold, gs)
    ensures AllConnected(data, dist, threshold, Grown(gs, u, v, d))
  {
    var all := Grown(gs, u, v, d);
    forall k | 0 <= k < |all| ensures Connected(data, dist, threshold, all[k].Keys) {
      if k < |gs| {
        assert gs[k] in gs;
        if Touches(gs[k], u, v) {
          JoinedConnected(data, dist, threshold, gs[k], u, v, d);
        }
      } else {
        PairConnected(data, dist, threshold, u, v, d);
      }
    }
  }

  /** After a close pair its two users share a group, and users that shared one still do. */
  lemma GrownCovers(gs: seq<Group>, u: Uid, v: Uid, d: real)
    ensures Covered(Grown(gs, u, v, d), u, v)
    ensures forall a, b | Covered(gs, a, b) :: Covered(Grown(gs, u, v, d), a, b)
  {
    var all := Grown(gs, u, v, d);
    if gs != [] && Touches(gs[0], u, v) {
      assert all[0] in all && u in all[0] && v in all[0];
    } else {
      if gs != [] {
        CountZero(gs, Apart(u, v));
        assert Apart(u, v)(gs[0]);
      }
      assert all[|gs|] == PairMap(u, v, d) && all[|gs|] in all;
    }
    forall a, b | Covered(gs, a, b) ensures Covered(all, a, b) {
      var i :| 0 <= i < |gs| && a in gs[i] && b in gs[i];
      assert a in all[i] && b in all[i] && all[i] in all;
    }
  }

  /** The distance of a close pair of user `a` is `d`. */
  ghost predicate CloseAt(data: seq<User>, dist: Distance, threshold: real, a: Uid, d: real) {
    exists i, j :: ClosePair(data, dist, threshold, i, j) &&
      (data[i].uid == a || data[j].uid == a) && dist(data[i], data[j]) == d
  }

  /** Every user in a group is recorded with the distance of one of its close pairs. */
  ghost predicate AllRecorded(data: seq<User>, dist: Distance, threshold: real, gs: seq<Group>) {
    forall g, a | g in gs && a in g :: CloseAt(data, dist, threshold, a, g[a])
  }

  lemma GrownRecorded(data: seq<User>, dist: Distance, threshold: real, gs: seq<Group>, i: int, j: int)
    requires ClosePair(data, dist, threshold, i, j) && AllRecorded(data, dist, threshold, gs)
    ensures AllRecorded(data, dist, threshold, Grown(gs, data[i].uid, data[j].uid, dist(data[i], data[j])))
  {
    var u, v, d := data[i].uid, data[j].uid, dist(data[i], data[j]);
    var all := Grown(gs, u, v, d);
    assert CloseAt(data, dist, threshold, u, d) && CloseAt(data, dist, threshold, v, d);
    forall k, a | 0 <= k < |all| && a in all[k] ensures CloseAt(data, dist, threshold, a, all[k][a]) {
      if k < |gs| {
        assert gs[k] in gs;
      }
    }
  }

  /** The groups after comparing users `k` and `j`. */
  function After(data: seq<User>, dist: Distance, threshold: real, k: nat, j: nat, gs: seq<Group>): seq<Group>
    requires j < |data|
  {
    if ClosePair(data, dist, threshold, k, j) then Grown(gs, data[k].uid, data[j].uid, dist(data[k], data[j])) else gs
  }

  /** The groups after comparing user `k` with the users from `j` on. */
  function Row(data: seq<User>, dist: Distance, threshold: real, k: nat, j: nat, gs: seq<Group>): seq<Group>
    decreases |data| - j
  {
    if j >= |data| then gs else Row(data, dist, threshold, k, j + 1, After(data, dist, threshold, k, j, gs))
  }

  /** The groups after comparing the users from `k` on with all later ones. */
  function Rows(data: seq<User>, dist: Distance, threshold: real, k: nat, gs: seq<Group>): seq<Group>
    decreases |data| - k
  {
    if k >= |data| then gs else Rows(data, dist, threshold, k + 1, Row(data, dist, threshold, k, k + 1, gs))
  }

  /** The groups are connected and record distances of close pairs. */
  ghost predicate Sound(data: seq<User>, dist: Distance, threshold: real, gs: seq<Group>) {
    AllConnected(data, dist, threshold, gs) && AllRecorded(data, dist, threshold, gs)
  }

  lemma OnePair(data: seq<User>, dist: Distance, threshold: real, i: int, j: int, gs: seq<Group>)
    requires ClosePair(data, dist, threshold, i, j) && Sound(data, dist, threshold, gs)
    ensures Sound(data, dist, threshold, Grown(gs, data[i].uid, data[j].uid, dist(data[i], data[j])))
  {
    var u, v, d := data[i].uid, data[j].uid, dist(data[i], data[j]);
    assert Close(data, dist, threshold, u, v);
    GrownConnected(data, dist, threshold, gs, u, v, d);
    GrownRecorded(data, dist, threshold, gs, i, j);
  }

  lemma AfterSound(data: seq<User>, dist: Distance, threshold: real, k: nat, j: nat, gs: seq<Group>)
    requires Sound(data, dist, threshold, gs) && j < |data|
    ensures Sound(data, dist, threshold, After(data, dist, threshold, k, j, gs))
  {
    if ClosePair(data, dist, threshold, k, j) {
      OnePair(data, dist, threshold, k, j, gs);
    }
  }

  lemma {:induction false} RowSound(data: seq<User>, dist: Distance, threshold: real, k: nat, j: nat, gs: seq<Group>)
    requires Sound(data, dist, threshold, gs)
    ensures Sound(data, dist, threshold, Row(data, dist, threshold, k, j, gs))
    decreases |data| - j
  {
    if j < |data| {
      AfterSound(data, dist, threshold, k, j, gs);
      RowSound(data, dist, threshold, k, j + 1, After(data, dist, threshold, k, j, gs));
    }
  }

  lemma {:induction false} RowsSound(data: seq<User>, dist: Distance, threshold: real, k: nat, gs: seq<Group>)
    requires Sound(data, dist, threshold, gs)
    ensures Sound(data, dist, threshold, Rows(data, dist, threshold, k, gs))
    decreases |data| - k
  {
    if k < |data| {
      RowSound(data, dist, threshold, k, k + 1, gs);
      RowsSound(data, dist, threshold, k + 1, Row(data, dist, threshold, k, k + 1, gs));
    }
  }

  /** Users that share a group go on sharing one. */
  lemma {:induction false} RowKeeps(
    data: seq<User>, dist: Distance, threshold: real, k: nat, j: nat, gs: seq<Group>, a: Uid, b: Uid)
    requires Covered(gs, a, b)
    ensures Covered(Row(data, dist, threshold, k, j, gs), a, b)
    decreases |data| - j
  {
    if j < |data| {
      if ClosePair(data, dist, threshold, k, j) {
        GrownCovers(gs, data[k].uid, data[j].uid, dist(data[k], data[j]));
      }
      RowKeeps(data, dist, threshold, k, j + 1, After(data, dist, threshold, k, j, gs), a, b);
    }
  }

  lemma {:induction false} RowsKeep(
    data: seq<User>, dist: Distance, threshold: real, k: nat, gs: seq<Group>, a: Uid, b: Uid)
    requires Covered(gs, a, b)
    ensures Covered(Rows(data, dist, threshold, k, gs), a, b)
    decreases |data| - k
  {
    if k < |data| {
      RowKeeps(data, dist, threshold, k, k + 1, gs, a, b);
      RowsKeep(data, dist, threshold, k + 1, Row(data, dist, threshold, k, k + 1, gs), a, b);
    }
  }

  lemma {:induction false} RowCovers(
    data: seq<User>, dist: Distance, threshold: real, k: nat, j: nat, gs: seq<Group>, m: nat)
    requires j <= m && ClosePair(data, dist, threshold, k, m)
    ensures Covered(Row(data, dist, threshold, k, j, gs), data[k].uid, data[m].uid)
    decreases |data| - j
  {
    var next := After(data, dist, threshold, k, j, gs);
    if j == m {
      GrownCovers(gs, data[k].uid, data[m].uid, dist(data[k], data[m]));
      RowKeeps(data, dist, threshold, k, j + 1, next, data[k].uid, data[m].uid);
    } else {
      RowCovers(data, dist, threshold, k, j + 1, next, m);
    }
  }

  lemma {:induction false} RowsCover(
    data: seq<User>, dist: Distance, threshold: real, k: nat, gs: seq<Group>, i: nat, j: nat)
    requires k <= i && ClosePair(data, dist, threshold, i, j)
    ensures Covered(Rows(data, dist, threshold, k, gs), data[i].uid, data[j].uid)
    decreases |data| - k
  {
    var next := Row(data, dist, threshold, k, k + 1, gs);
    if k == i {
      RowCovers(data, dist, threshold, k, k + 1, gs, j);
      RowsKeep(data, dist, threshold, k + 1, next, data[i].uid, data[j].uid);
    } else {
      RowsCover(data, dist, threshold, k + 1, next, i, j);
    }
  }

  // ----- the distances recorded

  /** Close pair `(i, j)` has user `a`. */
  predicate ClosePairOf(data: seq<User>, dist: Distance, threshold: real, a: Uid, i: int, j: int) {
    ClosePair(data, dist, threshold, i, j) && (data[i].uid == a || data[j].uid == a)
  }

  /** Pair `(i, j)` is compared before pair `(k, m)`. */
  predicate Before(i: int, j: int, k: int, m: int) {
    i < k || (i == k && j < m)
  }

  /** `(i, j)` is the last close pair of `a` before `(k, m)`. */
  ghost predicate LastPair(
    data: seq<User>, dist: Distance, threshold: real, a: Uid, i: int, j: int, k: int, m: int)
  {
    && ClosePairOf(data, dist, threshold, a, i, j) && Before(i, j, k, m)
    && forall x, y | ClosePairOf(data, dist, threshold, a, x, y) && Before(x, y, k, m) :: !Before(i, j, x, y)
  }

  ghost predicate RecordedAt(data: seq<User>, dist: Distance, threshold: real, a: Uid, d: real, k: int, m: int) {
    exists i, j :: LastPair(data, dist, threshold, a, i, j, k, m) && dist(data[i], data[j]) == d
  }

  ghost predicate Latest(data: seq<User>, dist: Distance, threshold: real, g: Group, k: int, m: int) {
    forall a | a in g :: RecordedAt(data, dist, threshold, a, g[a], k, m)
  }

  /** Every user in a group is recorded with the distance of its last close pair so far. */
  ghost predicate AllLatest(data: seq<User>, dist: Distance, threshold: real, gs: seq<Group>, k: int, m: int) {
    forall g | g in gs :: Latest(data, dist, threshold, g, k, m)
  }

  lemma RecordedLater(data: seq<User>, dist: Distance, threshold: real, a: Uid, d: real, k: int, m: int)
    requires RecordedAt(data, dist, threshold, a, d, k, m) && !ClosePairOf(data, dist, threshold, a, k, m)
    ensures RecordedAt(data, dist, threshold, a, d, k, m + 1)
  {
    var i, j :| LastPair(data, dist, threshold, a, i, j, k, m) && dist(data[i], data[j]) == d;
    assert LastPair(data, dist, threshold, a, i, j, k, m + 1);
  }

  lemma RecordedNow(data: seq<User>, dist: Distance, threshold: real, a: Uid, k: int, m: int)
    requires ClosePairOf(data, dist, threshold, a, k, m)
    ensures RecordedAt(data, dist, threshold, a, dist(data[k], data[m]), k, m + 1)
  {
    assert LastPair(data, dist, threshold, a, k, m, k, m + 1);
  }

  /** After a close pair, users of the pair are recorded with its distance, others as before. */
  lemma GrownValue(gs: seq<Group>, u: Uid, v: Uid, d: real, g: Group, a: Uid)
    requires g in Grown(gs, u, v, d) && a in g
    ensures if a == u || a == v then g[a] == d else exists h :: h in gs && a in h && h[a] == g[a]
  {
    var i :| 0 <= i < |Grown(gs, u, v, d)| && Grown(gs, u, v, d)[i] == g;
    if i < |gs| {
      assert g == Joined(gs[i], u, v, d) && gs[i] in gs;
    } else {
      assert g == PairMap(u, v, d);
    }
  }

  lemma GroupLatest(data: seq<User>, dist: Distance, threshold: real, k: nat, j: nat, gs: seq<Group>, g: Group, a: Uid)
    requires AllLatest(data, dist, threshold, gs, k, j) && j < |data|
    requires g in After(data, dist, threshold, k, j, gs) && a in g
    ensures RecordedAt(data, dist, threshold, a, g[a], k, j + 1)
  {
    if ClosePair(data, dist, threshold, k, j) {
      GrownValue(gs, data[k].uid, data[j].uid, dist(data[k], data[j]), g, a);
    }
    if ClosePairOf(data, dist, threshold, a, k, j) {
      RecordedNow(data, dist, threshold, a, k, j);
    } else {
      var h :| h in gs && a in h && h[a] == g[a];
      assert Latest(data, dist, threshold, h, k, j);
      RecordedLater(data, dist, threshold, a, g[a], k, j);
    }
  }

  lemma AfterLatest(data: seq<User>, dist: Distance, threshold: real, k: nat, j: nat, gs: seq<Group>)
    requires AllLatest(data, dist, threshold, gs, k, j) && j < |data|
    ensures AllLatest(data, dist, threshold, After(data, dist, threshold, k, j, gs), k, j + 1)
  {
    forall g, a | g in After(data, dist, threshold, k, j, gs) && a in g
      ensures RecordedAt(data, dist, threshold, a, g[a], k, j + 1)
    {
      GroupLatest(data, dist, threshold, k, j, gs, g, a);
    }
  }

  lemma {:induction false} RowLatest(data: seq<User>, dist: Distance, threshold: real, k: nat, j: nat, gs: seq<Group>)
    requires AllLatest(data, dist, threshold, gs, k, j) && j <= |data|
    ensures AllLatest(data, dist, threshold, Row(data, dist, threshold, k, j, gs), k, |data|)
    decreases |data| - j
  {
    if j < |data| {
      var next := After(data, dist, threshold, k, j, gs);
      AfterLatest(data, dist, threshold, k, j, gs);
      RowLatest(data, dist, threshold, k, j + 1, next);
      assert Row(data, dist, threshold, k, j, gs) == Row(data, dist, threshold, k, j + 1, next);
    } else {
      assert Row(data, dist, threshold, k, j, gs) == gs;
    }
  }

  /** There is nothing to compare between the end of one row and the start of the next. */
  lemma NextRow(data: seq<User>, dist: Distance, threshold: real, k: nat, gs: seq<Group>)
    requires AllLatest(data, dist, threshold, gs, k, |data|)
    ensures AllLatest(data, dist, threshold, gs, k + 1, k + 2)
  {
    forall g, a | g in gs && a in g ensures RecordedAt(data, dist, threshold, a, g[a], k + 1, k + 2) {
      assert Latest(data, dist, threshold, g, k, |data|);
      var i, j :| LastPair(data, dist, threshold, a, i, j, k, |data|) && dist(data[i], data[j]) == g[a];
      assert LastPair(data, dist, threshold, a, i, j, k + 1, k + 2);
    }
  }

  lemma {:induction false} RowsLatest(data: seq<User>, dist: Distance, threshold: real, k: nat, gs: seq<Group>)
    requires AllLatest(data, dist, threshold, gs, k, k + 1) && k <= |data|
    ensures AllLatest(data, dist, threshold, Rows(data, dist, threshold, k, gs), |data|, |data| + 1)
    decreases |data| - k
  {
    if k < |data| {
      var row := Row(data, dist, threshold, k, k + 1, gs);
      RowLatest(data, dist, threshold, k, k + 1, gs);
      NextRow(data, dist, threshold, k, row);
      RowsLatest(data, dist, threshold, k + 1, row);
    }
  }

  /** `d` is the distance of the last close pair of `a`: no later close pair has that user. */
  ghost predicate LastDistance(data: seq<User>, dist: Distance, threshold: real, a: Uid, d: real) {
    exists i, j :: ClosePairOf(data, dist, threshold, a, i, j) && d == dist(data[i], data[j]) &&
      (forall x, y | ClosePairOf(data, dist, threshold, a, x, y) :: !Before(i, j, x, y))
  }

  ghost predicate AllLast(data: seq<User>, dist: Distance, threshold: real, gs: seq<Group>) {
    forall g, a | g in gs && a in g :: LastDistance(data, dist, threshold, a, g[a])
  }

  lemma LatestIsLast(data: seq<User>, dist: Distance, threshold: real, gs: seq<Group>)
    requires AllLatest(data, dist, threshold, gs, |data|, |data| + 1)
    ensures AllLast(data, dist, threshold, gs)
  {
    forall g, a | g in gs && a in g ensures LastDistance(data, dist, threshold, a, g[a]) {
      assert Latest(data, dist, threshold, g, |data|, |data| + 1);
      var i, j :| LastPair(data, dist, threshold, a, i, j, |data|, |data| + 1) && dist(data[i], data[j]) == g[a];
      assert forall x, y | ClosePairOf(data, dist, threshold, a, x, y) :: Before(x, y, |data|, |data| + 1);
    }
  }

  /** Every close pair shares a group, every group is connected through close pairs, and each
      user is recorded with the distance of its last close pair. */
  method GPSCoordinateAna(gpsData: seq<User>, threshold: real, dist: Distance) returns (similar: seq<Group>)
    ensures similar == Rows(gpsData, dist, threshold, 0, [])
    ensures forall i, j | ClosePair(gpsData, dist, threshold, i, j) :: Covered(similar, gpsData[i].uid, gpsData[j].uid)
    ensures AllConnected(gpsData, dist, threshold, similar) && AllLast(gpsData, dist, threshold, similar)
  {
    similar := [];
    var k := 0;
    while k < |gpsData|
      invariant 0 <= k <= |gpsData|
      invariant Rows(gpsData, dist, threshold, k, similar) == Rows(gpsData, dist, threshold, 0, [])
    {
      ghost var before := similar;
      var j := k + 1;
      while j < |gpsData|
        invariant k < j <= |gpsData|
        invariant Row(gpsData, dist, threshold, k, j, similar) == Row(gpsData, dist, threshold, k, k + 1, before)
      {
        var p1, p2 := gpsData[k], gpsData[j];
        var d := dist(p1, p2);
        if d * 1000.0 < threshold {
          similar := AddPair(similar, p1.uid, p2.uid, d);
        }
        j := j + 1;
      }
      k := k + 1;
    }
    RowsSound(gpsData, dist, threshold, 0, []);
    RowsLatest(gpsData, dist, threshold, 0, []);
    LatestIsLast(gpsData, dist, threshold, similar);
    forall i, j | ClosePair(gpsData, dist, threshold, i, j) ensures Covered(similar, gpsData[i].uid, gpsData[j].uid) {
      RowsCover(gpsData, dist, threshold, 0, [], i, j);
    }
  }

  // ----- what grouping does not promise

  /** Distance along one line. */
  function Straight(a: User, b: User): real {
    if a.latitude < b.latitude then b.latitude - a.latitude else a.latitude - b.latitude
  }

  lemma {:induction false} NoneClose(
    data: seq<User>, dist: Distance, threshold: real, k: nat, j: nat, gs: seq<Group>)
    requires forall m | j <= m < |data| :: !ClosePair(data, dist, threshold, k, m)
    ensures Row(data, dist, threshold, k, j, gs) == gs
    decreases |data| - j
  {
    if j < |data| {
      NoneClose(data, dist, threshold, k, j + 1, gs);
    }
  }

  lemma {:induction false} OneClose(
    data: seq<User>, dist: Distance, threshold: real, k: nat, j: nat, gs: seq<Group>, i: nat)
    requires k < |data| && j <= i < |data|
    requires forall m | j <= m < |data| :: ClosePair(data, dist, threshold, k, m) <==> m == i
    ensures Row(data, dist, threshold, k, j, gs) == Grown(gs, data[k].uid, data[i].uid, dist(data[k], data[i]))
    decreases |data| - j
  {
    if j == i {
      NoneClose(data, dist, threshold, k, j + 1, After(data, dist, threshold, k, j, gs));
    } else {
      OneClose(data, dist, threshold, k, j + 1, gs, i);
    }
  }

  lemma ApartOnce(gs: seq<Group>, u: Uid, v: Uid)
    requires |gs| == 1 && !Touches(gs[0], u, v)
    ensures Count(gs, Apart(u, v)) == 1
  {
    assert Count(gs[1..], Apart(u, v)) == 0;
  }

  lemma ApartTwice(gs: seq<Group>, u: Uid, v: Uid)
    requires |gs| == 2 && !Touches(gs[0], u, v) && !Touches(gs[1], u, v)
    ensures Count(gs, Apart(u, v)) == 2
  {
    ApartOnce(gs[1..], u, v);
  }

  /** Three pairs of users, each pair at one place far from the others. */
  const FAR_PAIRS := [
    User(0, 0.0, 0.0), User(1, 0.0, 0.0), User(2, 10.0, 0.0),
    User(3, 10.0, 0.0), User(4, 20.0, 0.0), User(5, 20.0, 0.0)]

  lemma FarRows(a: seq<Group>, b: seq<Group>)
    requires a == Grown([], 0, 1, 0.0) && b == Grown(a, 2, 3, 0.0)
    ensures Rows(FAR_PAIRS, Straight, 10000.0, 0, []) == Grown(b, 4, 5, 0.0)
  {
    var data := FAR_PAIRS;
    OneClose(data, Straight, 10000.0, 4, 5, b, 5);
    assert Rows(data, Straight, 10000.0, 4, b) == Grown(b, 4, 5, 0.0);
    NoneClose(data, Straight, 10000.0, 3, 4, b);
    OneClose(data, Straight, 10000.0, 2, 3, a, 3);
    assert Rows(data, Straight, 10000.0, 2, a) == Grown(b, 4, 5, 0.0);
    NoneClose(data, Straight, 10000.0, 1, 2, a);
    OneClose(data, Straight, 10000.0, 0, 1, [], 1);
  }

  /** Groups need not be distinct: three close pairs far from each other give four groups, the
      last two equal. */
  lemma FarPairsRepeat()
    ensures var gs := Rows(FAR_PAIRS, Straight, 10000.0, 0, []); |gs| == 4 && gs[2] == gs[3] == PairMap(4, 5, 0.0)
  {
    var a := Grown([], 0, 1, 0.0);
    var b := Grown(a, 2, 3, 0.0);
    FarRows(a, b);
    assert a == [PairMap(0, 1, 0.0)];
    ApartOnce(a, 2, 3);
    assert b == a + [PairMap(2, 3, 0.0)];
    ApartTwice(b, 4, 5);
  }

  lemma NeitherApart(gs: seq<Group>, u: Uid, v: Uid)
    requires |gs| == 2 && Touches(gs[0], u, v) && Touches(gs[1], u, v)
    ensures Count(gs, Apart(u, v)) == 0
  {
    assert Count(gs[1..][1..], Apart(u, v)) == 0;
    assert Count(gs[1..], Apart(u, v)) == 0;
  }

  lemma LineGroups(data: seq<User>)
    requires data == [User(0, 0.0, 0.0), User(1, 3.0, 0.0), User(2, 2.0, 0.0), User(3, 1.0, 0.0)]
    ensures !Covered(Rows(data, Straight, 2000.0, 0, []), 0, 1)
  {
    var a := Grown([], 0, 3, 1.0);
    OneClose(data, Straight, 2000.0, 0, 1, [], 3);
    var b := Grown(a, 1, 2, 1.0);
    OneClose(data, Straight, 2000.0, 1, 2, a, 2);
    var c := Grown(b, 2, 3, 1.0);
    OneClose(data, Straight, 2000.0, 2, 3, b, 3);
    assert Rows(data, Straight, 2000.0, 3, c) == c;
    assert Rows(data, Straight, 2000.0, 1, a) == c;
    assert a == [PairMap(0, 3, 1.0)];
    ApartOnce(a, 1, 2);
    assert b == a + [PairMap(1, 2, 1.0)];
    NeitherApart(b, 2, 3);
    assert |c| == 2 && c[0].Keys == {0, 2, 3} && c[1].Keys == {1, 2, 3};
  }

  /** Nor are they the connected components: on a line 0, 3, 2, 1 neighbours are close, so a
      path of close pairs links users 0 and 1, and yet no group holds both. */
  lemma LinkedButApart()
    ensures var data := [User(0, 0.0, 0.0), User(1, 3.0, 0.0), User(2, 2.0, 0.0), User(3, 1.0, 0.0)];
      && Linked(data, Straight, 2000.0, {0, 1, 2, 3}, 0, 1)
      && !Covered(Rows(data, Straight, 2000.0, 0, []), 0, 1)
  {
    var data := [User(0, 0.0, 0.0), User(1, 3.0, 0.0), User(2, 2.0, 0.0), User(3, 1.0, 0.0)];
    assert ClosePair(data, Straight, 2000.0, 0, 3) && ClosePair(data, Straight, 2000.0, 1, 2);
    assert ClosePair(data, Straight, 2000.0, 2, 3);
    var p: seq<Uid> := [0, 3, 2, 1];
    assert Path(data, Straight, 2000.0, {0, 1, 2, 3}, p);
    LineGroups(data);
  }
}
