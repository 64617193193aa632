/**
  The four native queries of the request store, as functions over the
  table's rows: a filter, a sort (newest first, ties broken by the larger id) and a
  cut to at most `limit` rows. The generic `Search`, built from a conjunction of
  optional predicates, carries the properties; the contract of each
  hand-written query states that it is an instance of it.
*/
module Repo {
  import opened Entity

  // ---------------------------------------------------------------------
  // Geometry: a point strictly inside the envelope spanned by two corners
  // ---------------------------------------------------------------------

  /** The rectangle ST_MakeEnvelope builds from the corners (x1, y1) and (x2, y2). */
  datatype Envelope = Envelope(x1: real, y1: real, x2: real, y2: real)

  /** `v` lies strictly between `a` and `b`, whichever of the two is smaller. */
  predicate StrictlyBetween(a: real, v: real, b: real) {
    (a < v < b) || (b < v < a)
  }

  /**
    ST_Contains of a point geometry in an envelope: the point must lie in
    the interior, so a point on an edge is not contained, and a NULL
    geometry makes the predicate NULL, which WHERE treats as false.
  */
  predicate StContains(env: Envelope, geom: Option<Point>)
    ensures StContains(env, geom) <==>
      && geom.Some?
      && Min(env.x1, env.x2) < geom.value.lon < Max(env.x1, env.x2)
      && Min(env.y1, env.y2) < geom.value.lat < Max(env.y1, env.y2)
  {
    geom.Some?
    && StrictlyBetween(env.x1, geom.value.lon, env.x2)
    && StrictlyBetween(env.y1, geom.value.lat, env.y2)
  }

  function Min(a: real, b: real): real {
    if a <= b then a else b
  }

  function Max(a: real, b: real): real {
    if a <= b then b else a
  }

  /** For an envelope given as (min, min, max, max), containment is strict on all four sides. */
  lemma ContainsOrderedEnvelope(env: Envelope, geom: Option<Point>)
    requires env.x1 < env.x2 && env.y1 < env.y2
    ensures StContains(env, geom) <==>
      geom.Some? && env.x1 < geom.value.lon < env.x2 && env.y1 < geom.value.lat < env.y2
  {
  }

  // ---------------------------------------------------------------------
  // Ordering: newest first, then the larger id first
  // ---------------------------------------------------------------------

  /** `a` comes strictly before `b`: newer first, then the larger id first. */
  predicate RanksAhead(a: Row, b: Row) {
    a.createdAt > b.createdAt || (a.createdAt == b.createdAt && a.id > b.id)
  }

  /** `a` may come before `b` (it does not rank behind it). */
  predicate RanksAtLeast(a: Row, b: Row) {
    !RanksAhead(b, a)
  }

  predicate Ordered(s: seq<Row>) {
    forall i, j :: 0 <= i < j < |s| ==> RanksAtLeast(s[i], s[j])
  }

  predicate StrictlyOrdered(s: seq<Row>) {
    forall i, j :: 0 <= i < j < |s| ==> RanksAhead(s[i], s[j])
  }

  /** Inserts `x` into an ordered sequence at its place. */
  function InsertByRank(x: Row, s: seq<Row>): (r: seq<Row>)
    requires Ordered(s)
    ensures Ordered(r)
    ensures multiset(r) == multiset(s) + multiset{x}
  {
    if s == [] || RanksAtLeast(x, s[0]) then
      OrderedCons(x, s);
      [x] + s
    else
      var t := InsertByRank(x, s[1..]);
      HeadRanksFirst(x, s, t);
      OrderedCons(s[0], t);
      assert s == [s[0]] + s[1..];
      [s[0]] + t
  }

  /** A row that ranks at least as high as every row of an ordered sequence can go in front. */
  lemma OrderedCons(h: Row, t: seq<Row>)
    requires Ordered(t)
    requires t == [] || RanksAtLeast(h, t[0])
    ensures Ordered([h] + t)
  {
    var r := [h] + t;
    forall i, j | 0 <= i < j < |r|
      ensures RanksAtLeast(r[i], r[j])
    {
      if i == 0 && j > 1 {
        assert RanksAtLeast(t[0], t[j - 1]);
      }
    }
  }

  /**
    The head of an ordered sequence ranks at least as high as the head of
    any rearrangement of its tail with a lower-ranked row added.
  */
  lemma HeadRanksFirst(x: Row, s: seq<Row>, t: seq<Row>)
    requires Ordered(s) && s != [] && !RanksAtLeast(x, s[0])
    requires multiset(t) == multiset(s[1..]) + multiset{x}
    ensures t == [] || RanksAtLeast(s[0], t[0])
  {
    if t != [] && t[0] != x {
      assert t[0] in multiset(t);
      assert t[0] in multiset(s[1..]);
      var m :| 0 <= m < |s[1..]| && s[1..][m] == t[0];
      assert s[m + 1] == t[0];
    }
  }

  /** The ORDER BY clause: an ordered permutation of its input. */
  function SortByRecency(s: seq<Row>): (r: seq<Row>)
    ensures Ordered(r)
    ensures multiset(r) == multiset(s)
  {
    if s == [] then
      []
    else
      assert s == [s[0]] + s[1..];
      InsertByRank(s[0], SortByRecency(s[1..]))
  }

  // ---------------------------------------------------------------------
  // WHERE and LIMIT
  // ---------------------------------------------------------------------

  /** The WHERE clause: keeps exactly the rows satisfying `p`, with their multiplicity. */
  function Where(s: seq<Row>, p: Row -> bool): (r: seq<Row>)
    ensures forall x :: multiset(r)[x] == if p(x) then multiset(s)[x] else 0
    ensures forall x :: x in r <==> x in s && p(x)
    ensures multiset(r) <= multiset(s)
  {
    if s == [] then
      []
    else
      assert s == [s[0]] + s[1..];
      (if p(s[0]) then [s[0]] else []) + Where(s[1..], p)
  }

  /** The LIMIT clause: a prefix of at most `limit` rows, all of them when fewer exist. */
  function Take(s: seq<Row>, limit: nat): (r: seq<Row>)
    ensures |r| <= limit
    ensures r <= s
    ensures |r| < limit ==> r == s
  {
    if |s| <= limit then s else s[..limit]
  }

  lemma PrefixMultiset(r: seq<Row>, s: seq<Row>)
    requires r <= s
    ensures multiset(r) <= multiset(s)
  {
    assert s == r + s[|r|..];
  }

  // ---------------------------------------------------------------------
  // The generic search
  // ---------------------------------------------------------------------

  /** The conjunction of the optional predicates: created_at >= since, and ST_Contains. */
  predicate Matches(r: Row, since: Option<int>, bbox: Option<Envelope>) {
    && (since.None? || r.createdAt >= since.value)
    && (bbox.None? || StContains(bbox.value, r.geom))
  }

  function MatchFilter(since: Option<int>, bbox: Option<Envelope>): Row -> bool {
    (r: Row) => Matches(r, since, bbox)
  }

  /** A prefix of a sorted copy of `w` is ordered and takes its rows from `w`. */
  lemma PrefixOfSorted(w: seq<Row>, sorted: seq<Row>, r: seq<Row>)
    requires Ordered(sorted) && multiset(sorted) == multiset(w) && r <= sorted
    ensures Ordered(r)
    ensures multiset(r) <= multiset(w)
    ensures forall x :: x in r ==> x in w
  {
    PrefixMultiset(r, sorted);
    forall x | x in r
      ensures x in w
    {
      assert x in multiset(r);
    }
  }

  /**
    search(limit, since?, bbox?): the matching rows, newest first, at most
    `limit` of them, each one taken from the table.
  */
  function Search(table: seq<Row>, limit: nat, since: Option<int>, bbox: Option<Envelope>): (r: seq<Row>)
    ensures |r| <= limit
    ensures Ordered(r)
    ensures forall x :: x in r ==> Matches(x, since, bbox)
    ensures multiset(r) <= multiset(table)
  {
    var w := Where(table, MatchFilter(since, bbox));
    var sorted := SortByRecency(w);
    var r := Take(sorted, limit);
    PrefixOfSorted(w, sorted, r);
    assert forall x :: x in r ==> MatchFilter(since, bbox)(x);
    r
  }

  /** In an ordered sequence, anything past a prefix ranks behind everything in it. */
  lemma TakeDominates(sorted: seq<Row>, limit: nat, x: Row, y: Row)
    requires Ordered(sorted)
    requires x in sorted && x !in Take(sorted, limit) && y in Take(sorted, limit)
    ensures RanksAtLeast(y, x)
  {
    var r := Take(sorted, limit);
    var j :| 0 <= j < |sorted| && sorted[j] == x;
    var i :| 0 <= i < |r| && r[i] == y;
    assert sorted[i] == y;
    assert forall k :: 0 <= k < |r| ==> sorted[k] in r;
  }

  /**
    The result is the top `limit` of the matching rows: a matching row that
    was left out ranks behind every returned row.
  */
  lemma SearchIsTopK(table: seq<Row>, limit: nat, since: Option<int>, bbox: Option<Envelope>)
    ensures forall x, y ::
              (x in table && Matches(x, since, bbox) && x !in Search(table, limit, since, bbox)
               && y in Search(table, limit, since, bbox)) ==> RanksAtLeast(y, x)
  {
    var w := Where(table, MatchFilter(since, bbox));
    var sorted := SortByRecency(w);
    var r := Search(table, limit, since, bbox);
    assert r == Take(sorted, limit);
    forall x, y | x in table && Matches(x, since, bbox) && x !in r && y in r
      ensures RanksAtLeast(y, x)
    {
      assert MatchFilter(since, bbox)(x);
      assert x in multiset(sorted);
      TakeDominates(sorted, limit, x, y);
    }
  }

  /** When fewer than `limit` rows come back, every matching row came back. */
  lemma SearchIsComplete(table: seq<Row>, limit: nat, since: Option<int>, bbox: Option<Envelope>)
    requires |Search(table, limit, since, bbox)| < limit
    ensures forall x :: Matches(x, since, bbox) ==>
              multiset(Search(table, limit, since, bbox))[x] == multiset(table)[x]
  {
    var w := Where(table, MatchFilter(since, bbox));
    var r := Search(table, limit, since, bbox);
    assert r == Take(SortByRecency(w), limit);
    forall x | Matches(x, since, bbox)
      ensures multiset(r)[x] == multiset(table)[x]
    {
      assert MatchFilter(since, bbox)(x);
    }
  }

  /**
    A request at (-73.9, 40.7) is found with the box -74,40,-73,41 and not
    with -73.8,40,-73.7,41; one on the box's western edge is not found either.
  */
  lemma ContainmentExamples(r: Row, edge: Row)
    requires r.geom == Some(Point(-73.9, 40.7))
    requires edge.geom == Some(Point(-74.0, 40.5))
    ensures Search([r], 1, None, Some(Envelope(-74.0, 40.0, -73.0, 41.0))) == [r]
    ensures Search([r], 1, None, Some(Envelope(-73.8, 40.0, -73.7, 41.0))) == []
    ensures Search([edge], 1, None, Some(Envelope(-74.0, 40.0, -73.0, 41.0))) == []
  {
    var inside := MatchFilter(None, Some(Envelope(-74.0, 40.0, -73.0, 41.0)));
    var outside := MatchFilter(None, Some(Envelope(-73.8, 40.0, -73.7, 41.0)));
    assert inside(r) && !outside(r) && !inside(edge);
    assert Where([r], inside) == [r];
    assert Where([r], outside) == [];
    assert Where([edge], inside) == [];
    assert SortByRecency([r]) == [r];
  }

  // ---------------------------------------------------------------------
  // With the primary key, the order is total and the answer is determined
  // ---------------------------------------------------------------------

  lemma CountTwoPositions(s: seq<Row>, i: nat, j: nat)
    requires i < j < |s| && s[i] == s[j]
    ensures multiset(s)[s[i]] >= 2
  {
    assert s == s[..j] + s[j..];
    assert s[..j][i] == s[i];
    assert s[j..][0] == s[i];
  }

  lemma TwoPositionsOf(s: seq<Row>, x: Row) returns (p: nat, q: nat)
    requires multiset(s)[x] >= 2
    ensures p < q < |s| && s[p] == x && s[q] == x
  {
    assert x in s;
    p :| 0 <= p < |s| && s[p] == x;
    var rest := s[..p] + s[p + 1..];
    assert s == s[..p] + [s[p]] + s[p + 1..];
    assert x in multiset(rest);
    var k :| 0 <= k < |rest| && rest[k] == x;
    if k < p {
      assert s[k] == x;
      p, q := k, p;
    } else {
      assert s[k + 1] == x;
      q := k + 1;
    }
  }

  /** Any selection of rows from a table with a primary key has distinct ids. */
  lemma UniqueIdsSub(r: seq<Row>, s: seq<Row>)
    requires multiset(r) <= multiset(s)
    requires UniqueIds(s)
    ensures UniqueIds(r)
  {
    forall i, j | 0 <= i < |r| && 0 <= j < |r| && i != j
      ensures r[i].id != r[j].id
    {
      if r[i] == r[j] {
        if i < j { CountTwoPositions(r, i, j); } else { CountTwoPositions(r, j, i); }
        var p, q := TwoPositionsOf(s, r[i]);
      } else {
        assert r[i] in multiset(s) && r[j] in multiset(s);
        var p :| 0 <= p < |s| && s[p] == r[i];
        var q :| 0 <= q < |s| && s[q] == r[j];
      }
    }
  }

  lemma OrderedUniqueIsStrict(s: seq<Row>)
    requires Ordered(s) && UniqueIds(s)
    ensures StrictlyOrdered(s)
  {
    forall i, j | 0 <= i < j < |s|
      ensures RanksAhead(s[i], s[j])
    {
      assert RanksAtLeast(s[i], s[j]) && s[i].id != s[j].id;
    }
  }

  /** Two strictly ordered sequences holding the same rows start with the same row. */
  lemma StrictlyOrderedSameHead(a: seq<Row>, b: seq<Row>)
    requires StrictlyOrdered(a) && StrictlyOrdered(b)
    requires multiset(a) == multiset(b) && a != []
    ensures b != [] && a[0] == b[0]
  {
    assert a[0] in multiset(b);
    var j :| 0 <= j < |b| && b[j] == a[0];
    assert b[0] in multiset(a);
    var i :| 0 <= i < |a| && a[i] == b[0];
    assert i == 0;
  }

  /** Removing the same first row from two sequences holding the same rows. */
  lemma SameRowsTail(a: seq<Row>, b: seq<Row>)
    requires a != [] && b != [] && a[0] == b[0]
    requires multiset(a) == multiset(b)
    ensures multiset(a[1..]) == multiset(b[1..])
  {
    assert a == [a[0]] + a[1..];
    assert b == [b[0]] + b[1..];
    assert multiset(a) == multiset{a[0]} + multiset(a[1..]);
    assert multiset(b) == multiset{a[0]} + multiset(b[1..]);
    forall x
      ensures multiset(a[1..])[x] == multiset(b[1..])[x]
    {
      assert multiset(a)[x] == multiset(b)[x];
    }
  }

  /** Two strictly ordered sequences holding the same rows are the same sequence. */
  lemma {:induction false} StrictlyOrderedUnique(a: seq<Row>, b: seq<Row>)
    requires StrictlyOrdered(a) && StrictlyOrdered(b)
    requires multiset(a) == multiset(b)
    ensures a == b
    decreases |a|
  {
    if a == [] {
      assert |b| == |multiset(b)| == 0;
    } else {
      StrictlyOrderedSameHead(a, b);
      SameRowsTail(a, b);
      StrictlyOrderedUnique(a[1..], b[1..]);
      assert a == [a[0]] + a[1..];
      assert b == [b[0]] + b[1..];
    }
  }

  /** Under the primary key the result is strictly ordered: no two returned rows tie. */
  lemma SearchStrictlyOrdered(table: seq<Row>, limit: nat, since: Option<int>, bbox: Option<Envelope>)
    requires UniqueIds(table)
    ensures StrictlyOrdered(Search(table, limit, since, bbox))
  {
    var r := Search(table, limit, since, bbox);
    UniqueIdsSub(r, table);
    OrderedUniqueIsStrict(r);
  }

  lemma WhereSameRows(t1: seq<Row>, t2: seq<Row>, p: Row -> bool)
    requires multiset(t1) == multiset(t2)
    ensures multiset(Where(t1, p)) == multiset(Where(t2, p))
  {
    var w1, w2 := Where(t1, p), Where(t2, p);
    forall x
      ensures multiset(w1)[x] == multiset(w2)[x]
    {
    }
  }

  /**
    Under the primary key the answer depends only on which rows the table
    holds, not on the physical order in which the store keeps them.
  */
  lemma SearchDeterministic(t1: seq<Row>, t2: seq<Row>, limit: nat, since: Option<int>, bbox: Option<Envelope>)
    requires UniqueIds(t1)
    requires multiset(t1) == multiset(t2)
    ensures Search(t1, limit, since, bbox) == Search(t2, limit, since, bbox)
  {
    var f := MatchFilter(since, bbox);
    var w1, w2 := Where(t1, f), Where(t2, f);
    WhereSameRows(t1, t2, f);
    var s1, s2 := SortByRecency(w1), SortByRecency(w2);
    UniqueIdsSub(s1, t1);
    UniqueIdsSub(s2, t1);
    OrderedUniqueIsStrict(s1);
    OrderedUniqueIsStrict(s2);
    StrictlyOrderedUnique(s1, s2);
    assert Search(t1, limit, since, bbox) == Take(s1, limit);
    assert Search(t2, limit, since, bbox) == Take(s2, limit);
  }

  // ---------------------------------------------------------------------
  // The four hand-written queries
  // ---------------------------------------------------------------------

  /** Rows created at or after `since`. */
  function SinceClause(since: int): Row -> bool {
    (r: Row) => r.createdAt >= since
  }

  /** Rows whose point lies strictly inside the envelope. */
  function ContainsClause(env: Envelope): Row -> bool {
    (r: Row) => StContains(env, r.geom)
  }

  /** Rows that pass both the time filter and the envelope filter. */
  function SinceAndContainsClause(since: int, env: Envelope): Row -> bool {
    (r: Row) => r.createdAt >= since && StContains(env, r.geom)
  }

  /** Filtering with two predicates that agree on every row gives the same rows. */
  lemma {:induction false} WhereAgree(s: seq<Row>, p: Row -> bool, q: Row -> bool)
    requires forall x :: x in s ==> p(x) == q(x)
    ensures Where(s, p) == Where(s, q)
  {
    if s != [] {
      WhereAgree(s[1..], p, q);
    }
  }

  /** A predicate every row satisfies filters nothing out. */
  lemma {:induction false} WhereAll(s: seq<Row>, p: Row -> bool)
    requires forall x :: x in s ==> p(x)
    ensures Where(s, p) == s
  {
    if s != [] {
      WhereAll(s[1..], p);
      assert s == [s[0]] + s[1..];
    }
  }

  /** searchPlain: every row, newest first; the generic search without filters. */
  function SearchPlain(table: seq<Row>, limit: nat): (r: seq<Row>)
    ensures r == Search(table, limit, None, None)
  {
    WhereAll(table, MatchFilter(None, None));
    Take(SortByRecency(table), limit)
  }

  /** searchSince: the generic search with the time filter only. */
  function SearchSince(table: seq<Row>, limit: nat, since: int): (r: seq<Row>)
    ensures r == Search(table, limit, Some(since), None)
  {
    WhereAgree(table, SinceClause(since), MatchFilter(Some(since), None));
    Take(SortByRecency(Where(table, SinceClause(since))), limit)
  }

  /** searchBbox: the generic search with the envelope filter only. */
  function SearchBbox(table: seq<Row>, limit: nat, minLon: real, minLat: real, maxLon: real, maxLat: real): (r: seq<Row>)
    ensures r == Search(table, limit, None, Some(Envelope(minLon, minLat, maxLon, maxLat)))
  {
    var env := Envelope(minLon, minLat, maxLon, maxLat);
    WhereAgree(table, ContainsClause(env), MatchFilter(None, Some(env)));
    Take(SortByRecency(Where(table, ContainsClause(env))), limit)
  }

  /** searchSinceBbox: one WHERE clause joining both filters with AND; the generic search with both. */
  function SearchSinceBbox(table: seq<Row>, limit: nat, since: int,
                           minLon: real, minLat: real, maxLon: real, maxLat: real): (r: seq<Row>)
    ensures r == Search(table, limit, Some(since), Some(Envelope(minLon, minLat, maxLon, maxLat)))
  {
    var env := Envelope(minLon, minLat, maxLon, maxLat);
    WhereAgree(table, SinceAndContainsClause(since, env), MatchFilter(Some(since), Some(env)));
    Take(SortByRecency(Where(table, SinceAndContainsClause(since, env))), limit)
  }

  // ---------------------------------------------------------------------
  // Which repository method a caller invoked, with which arguments
  // ---------------------------------------------------------------------

  datatype RepoCall =
    | PlainCall(limit: nat)
    | SinceCall(limit: nat, since: int)
    | BboxCall(limit: nat, minLon: real, minLat: real, maxLon: real, maxLat: real)
    | SinceBboxCall(limit: nat, since: int, minLon: real, minLat: real, maxLon: real, maxLat: real)

  /** The repository method a call names, run on the table: the generic search with the call's own arguments. */
  function Execute(table: seq<Row>, call: RepoCall): (r: seq<Row>)
    ensures r == Search(table, call.limit, CallSince(call), CallEnvelope(call))
  {
    match call
    case PlainCall(limit) =>
      assert CallSince(call) == None && CallEnvelope(call) == None;
      SearchPlain(table, limit)
    case SinceCall(limit, since) =>
      assert CallSince(call) == Some(since) && CallEnvelope(call) == None;
      SearchSince(table, limit, since)
    case BboxCall(limit, a, b, c, d) =>
      assert CallSince(call) == None && CallEnvelope(call) == Some(Envelope(a, b, c, d));
      SearchBbox(table, limit, a, b, c, d)
    case SinceBboxCall(limit, since, a, b, c, d) =>
      assert CallSince(call) == Some(since) && CallEnvelope(call) == Some(Envelope(a, b, c, d));
      SearchSinceBbox(table, limit, since, a, b, c, d)
  }

  /** The filters a call applies, as the optional arguments of the generic search. */
  function CallSince(call: RepoCall): Option<int> {
    if call.SinceCall? || call.SinceBboxCall? then Some(call.since) else None
  }

  function CallEnvelope(call: RepoCall): Option<Envelope> {
    if call.BboxCall? || call.SinceBboxCall? then
      Some(Envelope(call.minLon, call.minLat, call.maxLon, call.maxLat))
    else
      None
  }
}
