/** The bounded-hop query over relations and the graph affinity computed from its answers. */
module Graph {
  import opened Basics

  /** A relation row; two entities may be related more than once. */
  datatype Relation = Relation(src: string, dst: string, kind: string)

  /** An answer row: an entity and the first level it was met at. */
  datatype Reached = Reached(node: string, hop: nat)

  const RESULT_LIMIT: nat := 256
  const GRAPH_HOP_LIMIT: nat := 2

  // ---------------------------------------------------------------- the recursive query

  function Targets(relations: seq<Relation>, node: string): seq<string> {
    if relations == [] then []
    else (if relations[0].src == node then [relations[0].dst] else []) + Targets(relations[1..], node)
  }

  /** Joins every row of a level with every relation that leaves it. */
  function Follow(relations: seq<Relation>, nodes: seq<string>): seq<string> {
    if nodes == [] then [] else Targets(relations, nodes[0]) + Follow(relations, nodes[1..])
  }

  /** The rows of the recursive table at one level: one per walk, so nodes repeat. */
  function Level(relations: seq<Relation>, start: string, k: nat): seq<string> {
    if k == 0 then [start] else Follow(relations, Level(relations, start, k - 1))
  }

  /** MIN(lvl) of a node over the table up to `limit`. */
  function MinLevel(relations: seq<Relation>, start: string, limit: nat, node: string): (k: Option<nat>)
    ensures k.Some? ==> k.value <= limit && node in Level(relations, start, k.value)
    ensures k.Some? ==> forall j: nat | j < k.value :: node !in Level(relations, start, j)
    ensures k.None? ==> forall j: nat | j <= limit :: node !in Level(relations, start, j)
  {
    if limit == 0 then
      if node == start then Some(0) else None
    else
      var below := MinLevel(relations, start, limit - 1, node);
      if below.Some? then below else if node in Level(relations, start, limit) then Some(limit) else None
  }

  predicate Sorted(rows: seq<Reached>) {
    forall i, j | 0 <= i < j < |rows| :: rows[i].hop <= rows[j].hop
  }

  predicate DistinctNodes(rows: seq<Reached>) {
    forall i, j | 0 <= i < j < |rows| :: rows[i].node != rows[j].node
  }

  /** The grouped and ordered result before the row limit; rows of equal hop come in any order. */
  ghost predicate Listing(relations: seq<Relation>, start: string, limit: nat, rows: seq<Reached>) {
    && Sorted(rows) && DistinctNodes(rows)
    && (forall node, hop: nat :: Reached(node, hop) in rows
                            <==> node != start && MinLevel(relations, start, limit, node) == Some(hop))
  }

  ghost predicate Answer(relations: seq<Relation>, start: string, limit: nat, rows: seq<Reached>) {
    exists all :: Listing(relations, start, limit, all) && rows == all[..Min(|all|, RESULT_LIMIT)]
  }

  // ---------------------------------------------------------------- walks and distance

  ghost predicate Edge(relations: seq<Relation>, a: string, b: string) {
    exists r :: r in relations && r.src == a && r.dst == b
  }

  /** A walk along relations, given by the nodes it visits. */
  ghost predicate IsWalk(relations: seq<Relation>, walk: seq<string>) {
    walk != [] && forall i, j | 0 <= i < j < |walk| && j == i + 1 :: Edge(relations, walk[i], walk[j])
  }

  ghost predicate Connected(relations: seq<Relation>, a: string, b: string, k: nat) {
    exists walk :: IsWalk(relations, walk) && |walk| == k + 1 && walk[0] == a && walk[k] == b
  }

  ghost predicate Distance(relations: seq<Relation>, a: string, b: string, d: nat) {
    Connected(relations, a, b, d) && forall k: nat | k < d :: !Connected(relations, a, b, k)
  }

  lemma {:induction false} TargetsAre(relations: seq<Relation>, a: string, b: string)
    ensures b in Targets(relations, a) <==> Edge(relations, a, b)
  {
    if relations != [] {
      TargetsAre(relations[1..], a, b);
      assert relations == [relations[0]] + relations[1..];
    }
  }

  lemma {:induction false} FollowIs(relations: seq<Relation>, nodes: seq<string>, b: string)
    ensures b in Follow(relations, nodes) <==> exists a :: a in nodes && Edge(relations, a, b)
  {
    if nodes != [] {
      TargetsAre(relations, nodes[0], b);
      FollowIs(relations, nodes[1..], b);
      assert nodes == [nodes[0]] + nodes[1..];
    }
  }

  lemma ExtendWalk(relations: seq<Relation>, a: string, m: string, b: string, k: nat)
    requires Connected(relations, a, m, k) && Edge(relations, m, b)
    ensures Connected(relations, a, b, k + 1)
  {
    var walk :| IsWalk(relations, walk) && |walk| == k + 1 && walk[0] == a && walk[k] == m;
    var longer := walk + [b];
    assert IsWalk(relations, longer) && |longer| == k + 2 && longer[0] == a && longer[k + 1] == b;
  }

  lemma ShortenWalk(relations: seq<Relation>, a: string, b: string, k: nat) returns (m: string)
    requires k > 0 && Connected(relations, a, b, k)
    ensures Connected(relations, a, m, k - 1) && Edge(relations, m, b)
  {
    var walk :| IsWalk(relations, walk) && |walk| == k + 1 && walk[0] == a && walk[k] == b;
    m := walk[k - 1];
    var shorter := walk[..k];
    forall i | 0 <= i < |shorter| - 1 ensures Edge(relations, shorter[i], shorter[i + 1]) {
      assert Edge(relations, walk[i], walk[i + 1]);
    }
    assert IsWalk(relations, shorter) && |shorter| == k && shorter[0] == a && shorter[k - 1] == m;
    assert Edge(relations, walk[k - 1], walk[k]);
  }

  lemma WalkOfNoSteps(relations: seq<Relation>, a: string, b: string)
    ensures Connected(relations, a, b, 0) <==> a == b
  {
    if a == b {
      assert IsWalk(relations, [a]) && |[a]| == 1 && [a][0] == a;
    }
  }

  lemma WalkOfMoreSteps(relations: seq<Relation>, a: string, b: string, k: nat)
    requires k > 0
    ensures Connected(relations, a, b, k) <==> exists m :: Connected(relations, a, m, k - 1) && Edge(relations, m, b)
  {
    if Connected(relations, a, b, k) {
      var m := ShortenWalk(relations, a, b, k);
    }
    if m :| Connected(relations, a, m, k - 1) && Edge(relations, m, b) {
      ExtendWalk(relations, a, m, b, k - 1);
    }
  }

  /** The table holds a node at a level exactly when a walk of that length leads there. */
  lemma {:induction false} LevelIsWalks(relations: seq<Relation>, start: string, k: nat, b: string)
    ensures b in Level(relations, start, k) <==> Connected(relations, start, b, k)
  {
    if k == 0 {
      WalkOfNoSteps(relations, start, b);
    } else {
      var before := Level(relations, start, k - 1);
      FollowIs(relations, before, b);
      WalkOfMoreSteps(relations, start, b, k);
      forall m ensures m in before <==> Connected(relations, start, m, k - 1) {
        LevelIsWalks(relations, start, k - 1, m);
      }
    }
  }

  lemma MinLevelIsDistance(relations: seq<Relation>, start: string, limit: nat, node: string, hop: nat)
    ensures MinLevel(relations, start, limit, node) == Some(hop)
            <==> hop <= limit && Distance(relations, start, node, hop)
  {
    forall k: nat ensures node in Level(relations, start, k) <==> Connected(relations, start, node, k) {
      LevelIsWalks(relations, start, k, node);
    }
  }

  /** The query answers exactly the other nodes within the limit, each with its shortest distance. */
  lemma QueryIsShortestDistance(relations: seq<Relation>, start: string, limit: nat, all: seq<Reached>)
    requires Listing(relations, start, limit, all)
    ensures forall node, hop: nat :: Reached(node, hop) in all
                                <==> node != start && hop <= limit && Distance(relations, start, node, hop)
  {
    forall node, hop: nat ensures Reached(node, hop) in all
                             <==> node != start && hop <= limit && Distance(relations, start, node, hop) {
      MinLevelIsDistance(relations, start, limit, node, hop);
    }
  }

  // ---------------------------------------------------------------- some order always exists

  function Group(nodes: seq<string>, hop: nat, seen: set<string>): seq<Reached> {
    if nodes == [] then []
    else if nodes[0] in seen then Group(nodes[1..], hop, seen)
    else [Reached(nodes[0], hop)] + Group(nodes[1..], hop, seen + {nodes[0]})
  }

  lemma {:induction false} GroupIs(nodes: seq<string>, hop: nat, seen: set<string>)
    ensures forall row :: row in Group(nodes, hop, seen) <==> row.hop == hop && row.node in nodes && row.node !in seen
    ensures DistinctNodes(Group(nodes, hop, seen))
  {
    if nodes != [] {
      assert nodes == [nodes[0]] + nodes[1..];
      if nodes[0] in seen {
        GroupIs(nodes[1..], hop, seen);
      } else {
        GroupIs(nodes[1..], hop, seen + {nodes[0]});
        var rest := Group(nodes[1..], hop, seen + {nodes[0]});
        DistinctCons(Reached(nodes[0], hop), rest);
      }
    }
  }

  lemma DistinctCons(first: Reached, rest: seq<Reached>)
    requires DistinctNodes(rest) && forall row | row in rest :: row.node != first.node
    ensures DistinctNodes([first] + rest)
  {
  }

  function MoreRows(relations: seq<Relation>, start: string, limit: nat, before: seq<Reached>): seq<Reached> {
    Group(Level(relations, start, limit), limit, {start} + set row | row in before :: row.node)
  }

  /** The rows level by level, each level in walk order. */
  function ByLevel(relations: seq<Relation>, start: string, limit: nat): seq<Reached> {
    if limit == 0 then []
    else
      var before := ByLevel(relations, start, limit - 1);
      before + MoreRows(relations, start, limit, before)
  }

  /** Whatever the relations, the query has a result. */
  lemma {:induction false} ByLevelIsListing(relations: seq<Relation>, start: string, limit: nat)
    ensures Listing(relations, start, limit, ByLevel(relations, start, limit))
  {
    if limit > 0 {
      ByLevelIsListing(relations, start, limit - 1);
      var before := ByLevel(relations, start, limit - 1);
      var more := MoreRows(relations, start, limit, before);
      MoreRowsAre(relations, start, limit, before);
      ListingGrows(relations, start, limit, before, more);
    }
  }

  lemma MoreRowsAre(relations: seq<Relation>, start: string, limit: nat, before: seq<Reached>)
    ensures var more := MoreRows(relations, start, limit, before);
            && DistinctNodes(more)
            && forall row :: row in more <==> && row.hop == limit && row.node in Level(relations, start, limit)
                                              && row.node != start && (forall b | b in before :: b.node != row.node)
  {
    GroupIs(Level(relations, start, limit), limit, {start} + set row | row in before :: row.node);
  }

  lemma ListingGrows(relations: seq<Relation>, start: string, limit: nat, before: seq<Reached>, more: seq<Reached>)
    requires limit > 0 && Listing(relations, start, limit - 1, before)
    requires forall row :: row in more <==> && row.hop == limit && row.node in Level(relations, start, limit)
                                            && row.node != start && (forall b | b in before :: b.node != row.node)
    requires DistinctNodes(more)
    ensures Listing(relations, start, limit, before + more)
  {
    var all := before + more;
    forall row | row in before ensures row.hop < limit {
      assert Reached(row.node, row.hop) in before;
    }
    forall i, j | 0 <= i < j < |all| ensures all[i].node != all[j].node && all[i].hop <= all[j].hop {
      assert i < |before| ==> all[i] in before;
      assert j >= |before| ==> all[j] in more && all[j] == more[j - |before|];
      assert i >= |before| ==> all[i] in more && all[i] == more[i - |before|];
    }
    forall node, hop: nat
      ensures Reached(node, hop) in all <==> node != start && MinLevel(relations, start, limit, node) == Some(hop)
    {
      var below := MinLevel(relations, start, limit - 1, node);
      assert Reached(node, hop) in before <==> node != start && below == Some(hop);
      if below.Some? && node != start {
        assert Reached(node, below.value) in before;
      }
      if b :| b in before && b.node == node {
        assert Reached(node, b.hop) in before;
      }
    }
  }

  // ---------------------------------------------------------------- affinity

  /** 0.5 to the power of a hop count. */
  function Half(hop: nat): (score: real)
    ensures 0.0 < score <= 1.0
  {
    if hop == 0 then 1.0 else Half(hop - 1) / 2.0
  }

  /** A number doubled `d` times. */
  function TimesPow2(x: real, d: nat): real
    decreases d
  {
    if d == 0 then x else TimesPow2(2.0 * x, d - 1)
  }

  lemma {:induction false} TimesPow2Is(x: real, d: nat)
    ensures TimesPow2(x, d) == x * Pow2(d) as real
    decreases d
  {
    if d > 0 {
      TimesPow2Is(2.0 * x, d - 1);
      TwiceOver(x, Pow2(d - 1) as real);
    }
  }

  lemma TwiceOver(x: real, y: real)
    ensures (2.0 * x) * y == x * (2.0 * y)
  {
  }

  /** The score of a hop count, times two to its power, is one. */
  lemma {:induction false} HalfIsInversePower(hop: nat)
    ensures TimesPow2(Half(hop), hop) == 1.0
    ensures Half(hop) * Pow2(hop) as real == 1.0
  {
    if hop > 0 {
      HalfIsInversePower(hop - 1);
    }
    TimesPow2Is(Half(hop), hop);
  }

  lemma {:induction false} HalfFalls(i: nat, j: nat)
    requires i <= j
    ensures Half(j) <= Half(i) && (i < j ==> Half(j) < Half(i))
    decreases j
  {
    if i < j {
      HalfFalls(i, j - 1);
    }
  }

  function Worth(row: Reached, candidates: seq<string>): (score: real)
    ensures 0.0 <= score
  {
    if row.node in candidates then Half(row.hop) else 0.0
  }

  /** The best score among answer rows that are candidates, 0 if there is none. */
  function Best(rows: seq<Reached>, candidates: seq<string>): (score: real)
    ensures 0.0 <= score
    ensures forall row | row in rows :: Worth(row, candidates) <= score
    ensures score == 0.0 || exists row :: row in rows && Worth(row, candidates) == score
  {
    if rows == [] then 0.0
    else
      var before := Best(rows[..|rows| - 1], candidates);
      var last := Worth(rows[|rows| - 1], candidates);
      if last > before then last else before
  }

  /** The nearest candidate among answer rows is `d` hops away. */
  predicate NearestRow(rows: seq<Reached>, candidates: seq<string>, d: nat) {
    && (exists row :: row in rows && row.node in candidates && row.hop == d)
    && (forall row | row in rows && row.node in candidates :: d <= row.hop)
  }

  lemma BestIsNearest(rows: seq<Reached>, candidates: seq<string>, d: nat)
    requires NearestRow(rows, candidates, d)
    ensures TimesPow2(Best(rows, candidates), d) == 1.0
  {
    var near :| near in rows && near.node in candidates && near.hop == d;
    assert Half(d) == Worth(near, candidates) <= Best(rows, candidates);
    var row :| row in rows && Worth(row, candidates) == Best(rows, candidates);
    assert row.node in candidates;
    HalfFalls(d, row.hop);
    HalfIsInversePower(d);
  }

  predicate Meet(a: seq<string>, b: seq<string>) {
    exists x :: x in a && x in b
  }

  /** Loops over the answer rows, keeping the best score: 1 / 2^d for a nearest candidate `d` hops away. */
  method AffinityFromReachability(queries: seq<string>, candidates: seq<string>, reachable: seq<Reached>)
    returns (score: real)
    ensures score == if Meet(queries, candidates) then 1.0
                     else if queries == [] then 0.0 else Best(reachable, candidates)
    ensures !Meet(queries, candidates) && queries != [] ==>
              forall d: nat | NearestRow(reachable, candidates, d) :: TimesPow2(score, d) == 1.0
    ensures !Meet(queries, candidates) && (forall row | row in reachable :: row.node !in candidates) ==> score == 0.0
  {
    forall d: nat | NearestRow(reachable, candidates, d) ensures TimesPow2(Best(reachable, candidates), d) == 1.0 {
      BestIsNearest(reachable, candidates, d);
    }
    if queries == [] || candidates == [] {
      if queries != [] {
        NoCandidates(reachable);
      }
      return 0.0;
    }
    for i := 0 to |queries|
      invariant forall q | q in queries[..i] :: q !in candidates
    {
      for j := 0 to |candidates|
        invariant queries[i] !in candidates[..j]
      {
        if queries[i] == candidates[j] {
          assert queries[i] in queries && queries[i] in candidates;
          return 1.0;
        }
      }
      assert candidates[..|candidates|] == candidates;
      assert queries[..i + 1] == queries[..i] + [queries[i]];
    }
    assert queries[..|queries|] == queries;
    score := 0.0;
    for i := 0 to |reachable|
      invariant score == Best(reachable[..i], candidates)
    {
      assert reachable[..i + 1][..i] == reachable[..i];
      if reachable[i].node in candidates {
        var worth := Half(reachable[i].hop);
        if worth > score {
          score := worth;
        }
      }
    }
    assert reachable[..|reachable|] == reachable;
  }

  lemma NoCandidates(reachable: seq<Reached>)
    ensures Best(reachable, []) == 0.0
  {
  }

  // ---------------------------------------------------------------- what the cut costs

  lemma {:induction false} BestOfSorted(rows: seq<Reached>, candidates: seq<string>, i: nat)
    requires Sorted(rows) && i < |rows| && rows[i].node in candidates
    requires forall j | 0 <= j < i :: rows[j].node !in candidates
    ensures Best(rows, candidates) == Half(rows[i].hop)
  {
    assert Worth(rows[i], candidates) <= Best(rows, candidates);
    var row :| row in rows && Worth(row, candidates) == Best(rows, candidates);
    var j :| 0 <= j < |rows| && rows[j] == row;
    HalfFalls(rows[i].hop, rows[j].hop);
  }

  function FirstHit(rows: seq<Reached>, candidates: seq<string>): (i: nat)
    ensures i <= |rows|
    ensures i < |rows| ==> rows[i].node in candidates
    ensures forall j | 0 <= j < i :: rows[j].node !in candidates
  {
    if rows == [] then 0
    else
      var i := FirstHit(rows[..|rows| - 1], candidates);
      if i < |rows| - 1 then i else if rows[i].node in candidates then i else i + 1
  }

  /** Cutting a sorted answer short loses the best score or leaves it exact, never anything in between:
      exact exactly when the first candidate is within the cut or there was none. */
  lemma CutIsAllOrNothing(all: seq<Reached>, candidates: seq<string>, n: nat)
    requires Sorted(all) && n <= |all|
    ensures var i := FirstHit(all, candidates);
            Best(all[..n], candidates) == if i < n then Best(all, candidates) else 0.0
    ensures FirstHit(all, candidates) == |all| ==> Best(all, candidates) == 0.0
  {
    var i := FirstHit(all, candidates);
    if i < n {
      BestOfSorted(all, candidates, i);
      BestOfSorted(all[..n], candidates, i);
    }
  }

  /** The nearest candidate is `d` hops away; 0 when the entity is a candidate itself. */
  ghost predicate NearestAt(relations: seq<Relation>, query: string, candidates: seq<string>, d: nat) {
    && (exists c :: c in candidates && Connected(relations, query, c, d))
    && (forall c, k: nat | c in candidates && k < d :: !Connected(relations, query, c, k))
  }

  ghost predicate NoneWithin(relations: seq<Relation>, query: string, candidates: seq<string>, limit: nat) {
    forall c, k: nat | c in candidates && k <= limit :: !Connected(relations, query, c, k)
  }

  lemma {:induction false} Shortest(relations: seq<Relation>, a: string, b: string, k: nat) returns (d: nat)
    requires Connected(relations, a, b, k)
    ensures d <= k && Distance(relations, a, b, d)
    decreases k
  {
    if j: nat :| j < k && Connected(relations, a, b, j) {
      d := Shortest(relations, a, b, j);
    } else {
      d := k;
    }
  }

  lemma RowOf(relations: seq<Relation>, query: string, limit: nat, all: seq<Reached>, node: string, k: nat)
    returns (j: nat)
    requires Listing(relations, query, limit, all) && node != query
    requires k <= limit && Connected(relations, query, node, k)
    ensures j < |all| && all[j].node == node && all[j].hop <= k
  {
    var hop := Shortest(relations, query, node, k);
    MinLevelIsDistance(relations, query, limit, node, hop);
    assert Reached(node, hop) in all;
    j :| 0 <= j < |all| && all[j] == Reached(node, hop);
  }

  /** The first candidate among the rows is at most as far as any candidate. */
  lemma FirstHitIsNear(relations: seq<Relation>, query: string, candidates: seq<string>, limit: nat, all: seq<Reached>,
                       c: string, k: nat)
    requires Listing(relations, query, limit, all) && query !in candidates
    requires c in candidates && k <= limit && Connected(relations, query, c, k)
    ensures FirstHit(all, candidates) < |all| && all[FirstHit(all, candidates)].hop <= k
  {
    var j := RowOf(relations, query, limit, all, c, k);
  }

  lemma SortedHitIsNearest(relations: seq<Relation>, query: string, candidates: seq<string>, limit: nat,
                           all: seq<Reached>)
    requires Listing(relations, query, limit, all) && query !in candidates
    ensures var i := FirstHit(all, candidates);
            if i < |all| then all[i].hop <= limit && NearestAt(relations, query, candidates, all[i].hop)
            else NoneWithin(relations, query, candidates, limit)
  {
    var i := FirstHit(all, candidates);
    if i < |all| {
      assert Reached(all[i].node, all[i].hop) in all;
      MinLevelIsDistance(relations, query, limit, all[i].node, all[i].hop);
    }
    forall c, k: nat | c in candidates && k <= limit && Connected(relations, query, c, k)
      ensures i < |all| && all[i].hop <= k
    {
      FirstHitIsNear(relations, query, candidates, limit, all, c, k);
    }
  }

  // ---------------------------------------------------------------- affinity of a whole query

  ghost predicate CandidateAt(relations: seq<Relation>, query: string, candidates: seq<string>, k: nat) {
    exists c :: c in candidates && Connected(relations, query, c, k)
  }

  /** How far the nearest candidate is, up to `limit` hops. */
  ghost function Nearest(relations: seq<Relation>, query: string, candidates: seq<string>, limit: nat): Option<nat> {
    var below := if limit == 0 then None else Nearest(relations, query, candidates, limit - 1);
    if below.Some? then below else if CandidateAt(relations, query, candidates, limit) then Some(limit) else None
  }

  lemma {:induction false} NearestIs(relations: seq<Relation>, query: string, candidates: seq<string>, limit: nat)
    ensures var d := Nearest(relations, query, candidates, limit);
            if d.Some? then d.value <= limit && NearestAt(relations, query, candidates, d.value)
            else NoneWithin(relations, query, candidates, limit)
  {
    if limit > 0 {
      NearestIs(relations, query, candidates, limit - 1);
    }
    forall c | c in candidates && Connected(relations, query, c, limit)
      ensures CandidateAt(relations, query, candidates, limit)
    {
    }
  }

  /** Half per hop to the candidate nearest to an entity, 0 if none is within the limit. */
  ghost function Contribution(relations: seq<Relation>, query: string, candidates: seq<string>, limit: nat): (r: real)
    ensures 0.0 <= r <= 1.0
  {
    match Nearest(relations, query, candidates, limit)
    case None => 0.0
    case Some(d) => Half(d)
  }

  function Higher(a: real, b: real): real {
    if b > a then b else a
  }

  /** The largest contribution among the first `n` entities. */
  ghost function Affinity(relations: seq<Relation>, queries: seq<string>, n: nat, candidates: seq<string>, limit: nat)
    : (r: real)
    requires n <= |queries|
    ensures 0.0 <= r <= 1.0
  {
    if n == 0 then 0.0
    else Higher(Affinity(relations, queries, n - 1, candidates, limit),
                Contribution(relations, queries[n - 1], candidates, limit))
  }

  lemma NearestUnique(relations: seq<Relation>, query: string, candidates: seq<string>, limit: nat, d: nat)
    requires d <= limit && NearestAt(relations, query, candidates, d)
    ensures Nearest(relations, query, candidates, limit) == Some(d)
  {
    NearestIs(relations, query, candidates, limit);
    var c :| c in candidates && Connected(relations, query, c, d);
    var e := Nearest(relations, query, candidates, limit);
    assert e.Some? && e.value <= d;
    var b :| b in candidates && Connected(relations, query, b, e.value);
  }

  /** An entity contributes 1 / 2^d if its nearest candidate is `d` hops away, and nothing without a candidate. */
  lemma ContributionIs(relations: seq<Relation>, query: string, candidates: seq<string>, limit: nat)
    ensures forall d: nat | d <= limit && NearestAt(relations, query, candidates, d) ::
              TimesPow2(Contribution(relations, query, candidates, limit), d) == 1.0
    ensures NoneWithin(relations, query, candidates, limit) ==>
              Contribution(relations, query, candidates, limit) == 0.0
  {
    forall d: nat | d <= limit && NearestAt(relations, query, candidates, d)
      ensures TimesPow2(Contribution(relations, query, candidates, limit), d) == 1.0
    {
      NearestUnique(relations, query, candidates, limit, d);
      HalfIsInversePower(d);
    }
    NearestIs(relations, query, candidates, limit);
  }

  /** The nearest candidate of any of the first `n` entities is `d` hops away. */
  ghost predicate NearestOfAll(relations: seq<Relation>, queries: seq<string>, n: nat, candidates: seq<string>, d: nat)
    requires n <= |queries|
  {
    && (exists i :: 0 <= i < n && CandidateAt(relations, queries[i], candidates, d))
    && NoneNearer(relations, queries, n, candidates, d)
  }

  /** All candidates of the first `n` entities are at least `d` hops away. */
  ghost predicate NoneNearer(relations: seq<Relation>, queries: seq<string>, n: nat, candidates: seq<string>, d: nat)
    requires n <= |queries|
  {
    forall i, k: nat | 0 <= i < n && k < d :: !CandidateAt(relations, queries[i], candidates, k)
  }

  lemma {:induction false} AffinityAtMost(relations: seq<Relation>, queries: seq<string>, n: nat,
                                          candidates: seq<string>, limit: nat, d: nat)
    requires n <= |queries| && NoneNearer(relations, queries, n, candidates, d)
    ensures Affinity(relations, queries, n, candidates, limit) <= if d <= limit then Half(d) else 0.0
  {
    if n > 0 {
      AffinityAtMost(relations, queries, n - 1, candidates, limit, d);
      NearestIs(relations, queries[n - 1], candidates, limit);
      var e := Nearest(relations, queries[n - 1], candidates, limit);
      if e.Some? {
        var c :| c in candidates && Connected(relations, queries[n - 1], c, e.value);
        assert CandidateAt(relations, queries[n - 1], candidates, e.value);
        assert d <= e.value;
        HalfFalls(d, e.value);
      }
    }
  }

  lemma {:induction false} AffinityAtLeast(relations: seq<Relation>, queries: seq<string>, n: nat,
                                           candidates: seq<string>, limit: nat, d: nat, i: nat)
    requires i < n <= |queries| && d <= limit && CandidateAt(relations, queries[i], candidates, d)
    ensures Half(d) <= Affinity(relations, queries, n, candidates, limit)
  {
    if i < n - 1 {
      AffinityAtLeast(relations, queries, n - 1, candidates, limit, d, i);
    } else {
      NearestIs(relations, queries[i], candidates, limit);
      var c :| c in candidates && Connected(relations, queries[i], c, d);
      HalfFalls(Nearest(relations, queries[i], candidates, limit).value, d);
    }
  }

  /** The affinity is 1 / 2^d if the nearest candidate of any entity is `d` hops away, and 0 if none is within the
      limit. */
  lemma AffinityIs(relations: seq<Relation>, queries: seq<string>, candidates: seq<string>, limit: nat)
    ensures forall d: nat | d <= limit && NearestOfAll(relations, queries, |queries|, candidates, d) ::
              TimesPow2(Affinity(relations, queries, |queries|, candidates, limit), d) == 1.0
    ensures NoneNearer(relations, queries, |queries|, candidates, limit + 1) ==>
              Affinity(relations, queries, |queries|, candidates, limit) == 0.0
  {
    var n := |queries|;
    forall d: nat | d <= limit && NearestOfAll(relations, queries, n, candidates, d)
      ensures TimesPow2(Affinity(relations, queries, n, candidates, limit), d) == 1.0
    {
      var i :| 0 <= i < n && CandidateAt(relations, queries[i], candidates, d);
      AffinityAtLeast(relations, queries, n, candidates, limit, d, i);
      AffinityAtMost(relations, queries, n, candidates, limit, d);
      HalfIsInversePower(d);
    }
    if NoneNearer(relations, queries, n, candidates, limit + 1) {
      AffinityAtMost(relations, queries, n, candidates, limit, limit + 1);
    }
  }

  /** Candidates that are farther from all entities score strictly less. */
  lemma FartherScoresLess(relations: seq<Relation>, queries: seq<string>, near: seq<string>, far: seq<string>,
                          limit: nat, d: nat)
    requires d <= limit && NearestOfAll(relations, queries, |queries|, near, d)
    requires NoneNearer(relations, queries, |queries|, far, d + 1)
    ensures Affinity(relations, queries, |queries|, far, limit) < Affinity(relations, queries, |queries|, near, limit)
  {
    var i :| 0 <= i < |queries| && CandidateAt(relations, queries[i], near, d);
    AffinityAtLeast(relations, queries, |queries|, near, limit, d, i);
    AffinityAtMost(relations, queries, |queries|, far, limit, d + 1);
    HalfFalls(d, d + 1);
  }

  /** What a listing cut after `n` rows yields for one entity is its contribution, or 0 because the cut took all
      the candidates away. */
  lemma CutListing(relations: seq<Relation>, query: string, candidates: seq<string>, limit: nat, all: seq<Reached>,
                   n: nat)
    requires Listing(relations, query, limit, all) && query !in candidates && n <= |all|
    ensures var exact := Contribution(relations, query, candidates, limit);
            Best(all[..n], candidates) == if FirstHit(all, candidates) < n then exact else 0.0
    ensures FirstHit(all, candidates) == |all| <==> Nearest(relations, query, candidates, limit) == None
    ensures FirstHit(all, candidates) < |all| ==>
              Nearest(relations, query, candidates, limit) == Some(all[FirstHit(all, candidates)].hop)
  {
    SortedHitIsNearest(relations, query, candidates, limit, all);
    CutIsAllOrNothing(all, candidates, n);
    NearestIs(relations, query, candidates, limit);
    var i := FirstHit(all, candidates);
    if i < |all| {
      BestOfSorted(all, candidates, i);
      NearestUnique(relations, query, candidates, limit, all[i].hop);
    }
  }

  // ---------------------------------------------------------------- when the cut is harmless

  function NodesOf(rows: seq<Reached>): set<string> {
    set row | row in rows :: row.node
  }

  lemma {:induction false} DistinctSize(rows: seq<Reached>)
    requires DistinctNodes(rows)
    ensures |NodesOf(rows)| == |rows|
  {
    if rows != [] {
      var last := rows[|rows| - 1];
      DistinctSize(rows[..|rows| - 1]);
      assert rows == rows[..|rows| - 1] + [last];
      assert last.node !in NodesOf(rows[..|rows| - 1]);
      assert NodesOf(rows) == NodesOf(rows[..|rows| - 1]) + {last.node};
    }
  }

  /** All listings of a query hold the same rows. */
  lemma ListingsAlike(relations: seq<Relation>, start: string, limit: nat, a: seq<Reached>, b: seq<Reached>)
    requires Listing(relations, start, limit, a) && Listing(relations, start, limit, b)
    ensures NodesOf(a) == NodesOf(b) && |a| == |b|
  {
    forall row: Reached ensures row in a <==> row in b {
      assert Reached(row.node, row.hop) == row;
    }
    DistinctSize(a);
    DistinctSize(b);
  }

  /** The entities within `d` hops that are not candidates. */
  function Others(relations: seq<Relation>, query: string, candidates: seq<string>, d: nat): set<string> {
    set row | row in ByLevel(relations, query, d) && row.node !in candidates :: row.node
  }

  lemma OthersAre(relations: seq<Relation>, query: string, candidates: seq<string>, d: nat, node: string)
    ensures node in Others(relations, query, candidates, d)
            <==> node !in candidates && node != query && exists k: nat :: k <= d && Connected(relations, query, node, k)
  {
    ByLevelIsListing(relations, query, d);
    var all := ByLevel(relations, query, d);
    QueryIsShortestDistance(relations, query, d, all);
    if node in Others(relations, query, candidates, d) {
      var row :| row in all && row.node == node;
      assert Reached(node, row.hop) in all;
    }
    if node != query {
      if k: nat :| k <= d && Connected(relations, query, node, k) {
        var hop := Shortest(relations, query, node, k);
        assert Reached(node, hop) in all;
      }
    }
  }

  /** The nearest candidate is met within the rows that an answer can hold, in whatever order rows of equal hop
      come. */
  ghost predicate Harmless(relations: seq<Relation>, query: string, candidates: seq<string>, limit: nat) {
    var d := Nearest(relations, query, candidates, limit);
    d.Some? ==> |Others(relations, query, candidates, d.value)| < RESULT_LIMIT
  }

  /** Rows of equal hop with the candidates last. */
  predicate CandidatesLast(rows: seq<Reached>, candidates: seq<string>) {
    forall i, j | 0 <= i < j < |rows| && rows[i].hop == rows[j].hop ::
      rows[i].node in candidates ==> rows[j].node in candidates
  }

  function Pick(rows: seq<Reached>, candidates: seq<string>, hits: bool): (picked: seq<Reached>)
    ensures forall row :: row in picked <==> row in rows && (row.node in candidates <==> hits)
  {
    if rows == [] then []
    else (if rows[0].node in candidates <==> hits then [rows[0]] else []) + Pick(rows[1..], candidates, hits)
  }

  lemma {:induction false} PickDistinct(rows: seq<Reached>, candidates: seq<string>, hits: bool)
    requires DistinctNodes(rows)
    ensures DistinctNodes(Pick(rows, candidates, hits))
  {
    if rows != [] {
      PickDistinct(rows[1..], candidates, hits);
      DistinctCons(rows[0], Pick(rows[1..], candidates, hits));
    }
  }

  function Sifted(rows: seq<Reached>, candidates: seq<string>): seq<Reached> {
    Pick(rows, candidates, false) + Pick(rows, candidates, true)
  }

  lemma SiftedIs(rows: seq<Reached>, candidates: seq<string>)
    requires DistinctNodes(rows)
    ensures var sifted := Sifted(rows, candidates);
            DistinctNodes(sifted) && CandidatesLast(sifted, candidates)
            && forall row :: row in sifted <==> row in rows
  {
    PickDistinct(rows, candidates, false);
    PickDistinct(rows, candidates, true);
    var first := Pick(rows, candidates, false);
    var second := Pick(rows, candidates, true);
    var sifted := Sifted(rows, candidates);
    forall i, j | 0 <= i < j < |sifted|
      ensures sifted[i].node != sifted[j].node && (sifted[i].node in candidates ==> sifted[j].node in candidates)
    {
      assert i < |first| ==> sifted[i] in first;
      assert j >= |first| ==> sifted[j] in second && sifted[j] == second[j - |first|];
      assert i >= |first| ==> sifted[i] in second && sifted[i] == second[i - |first|];
    }
  }

  lemma ListingWithLevel(relations: seq<Relation>, start: string, candidates: seq<string>, limit: nat,
                         before: seq<Reached>)
    returns (rows: seq<Reached>)
    requires limit > 0 && Listing(relations, start, limit - 1, before) && CandidatesLast(before, candidates)
    ensures Listing(relations, start, limit, rows) && CandidatesLast(rows, candidates)
  {
    var more := MoreRows(relations, start, limit, before);
    MoreRowsAre(relations, start, limit, before);
    SiftedIs(more, candidates);
    rows := before + Sifted(more, candidates);
    ListingGrows(relations, start, limit, before, Sifted(more, candidates));
    LastLevel(relations, start, candidates, limit, before, Sifted(more, candidates));
  }

  lemma NoRowsAtLevelZero(relations: seq<Relation>, start: string, candidates: seq<string>) returns (rows: seq<Reached>)
    ensures Listing(relations, start, 0, rows) && CandidatesLast(rows, candidates)
  {
    rows := [];
  }

  /** The rows may come level by level, in each level the candidates last. */
  lemma {:induction false} LatestListing(relations: seq<Relation>, start: string, candidates: seq<string>, limit: nat)
    returns (rows: seq<Reached>)
    ensures Listing(relations, start, limit, rows) && CandidatesLast(rows, candidates)
  {
    if limit == 0 {
      rows := NoRowsAtLevelZero(relations, start, candidates);
    } else {
      var before := LatestListing(relations, start, candidates, limit - 1);
      rows := ListingWithLevel(relations, start, candidates, limit, before);
    }
  }

  lemma LastLevel(relations: seq<Relation>, start: string, candidates: seq<string>, limit: nat,
                  before: seq<Reached>, more: seq<Reached>)
    requires limit > 0 && Listing(relations, start, limit - 1, before) && CandidatesLast(before, candidates)
    requires CandidatesLast(more, candidates) && forall row | row in more :: row.hop == limit
    ensures CandidatesLast(before + more, candidates)
  {
    var all := before + more;
    forall row | row in before ensures row.hop < limit {
      assert Reached(row.node, row.hop) in before;
    }
    forall i, j | 0 <= i < j < |all| && all[i].hop == all[j].hop && all[i].node in candidates
      ensures all[j].node in candidates
    {
      assert i < |before| ==> all[i] in before;
      assert j >= |before| ==> all[j] in more && all[j] == more[j - |before|];
      assert i >= |before| ==> all[i] in more && all[i] == more[i - |before|];
    }
  }

  /** Before the first candidate come only other entities, none of them farther away. */
  lemma FirstHitAfterOthers(relations: seq<Relation>, query: string, candidates: seq<string>, limit: nat,
                            all: seq<Reached>)
    requires Listing(relations, query, limit, all) && FirstHit(all, candidates) < |all|
    ensures var i := FirstHit(all, candidates); i <= |Others(relations, query, candidates, all[i].hop)|
  {
    var i := FirstHit(all, candidates);
    var d := all[i].hop;
    var first := all[..i];
    QueryIsShortestDistance(relations, query, limit, all);
    forall node | node in NodesOf(first) ensures node in Others(relations, query, candidates, d) {
      var j :| 0 <= j < i && all[j].node == node;
      assert Reached(node, all[j].hop) in all;
      OthersAre(relations, query, candidates, d, node);
    }
    DistinctSize(first);
    SubsetSize(NodesOf(first), Others(relations, query, candidates, d));
  }

  lemma RowBeforeFirstHit(all: seq<Reached>, candidates: seq<string>, j: nat)
    requires Sorted(all) && CandidatesLast(all, candidates) && j < |all| && all[j].node !in candidates
    requires FirstHit(all, candidates) < |all| && all[j].hop <= all[FirstHit(all, candidates)].hop
    ensures j < FirstHit(all, candidates)
  {
    assert all[FirstHit(all, candidates)].node in candidates;
  }

  /** With the candidates last in every level, an entity as near as the first candidate comes before it. */
  lemma OtherBeforeFirstHit(relations: seq<Relation>, query: string, candidates: seq<string>, limit: nat,
                            all: seq<Reached>, node: string)
    requires Listing(relations, query, limit, all) && CandidatesLast(all, candidates)
    requires var i := FirstHit(all, candidates);
             i < |all| && all[i].hop <= limit && node in Others(relations, query, candidates, all[i].hop)
    ensures node in NodesOf(all[..FirstHit(all, candidates)])
  {
    var i := FirstHit(all, candidates);
    OthersAre(relations, query, candidates, all[i].hop, node);
    var k: nat :| k <= all[i].hop && Connected(relations, query, node, k);
    var j := RowOf(relations, query, limit, all, node, k);
    RowBeforeFirstHit(all, candidates, j);
    assert all[..i][j] == all[j];
  }

  /** So all of them do. */
  lemma OthersBeforeFirstHit(relations: seq<Relation>, query: string, candidates: seq<string>, limit: nat,
                             all: seq<Reached>)
    requires Listing(relations, query, limit, all) && CandidatesLast(all, candidates)
    requires FirstHit(all, candidates) < |all|
    ensures var i := FirstHit(all, candidates); |Others(relations, query, candidates, all[i].hop)| <= i
  {
    var i := FirstHit(all, candidates);
    assert Reached(all[i].node, all[i].hop) in all;
    forall node | node in Others(relations, query, candidates, all[i].hop) ensures node in NodesOf(all[..i]) {
      OtherBeforeFirstHit(relations, query, candidates, limit, all, node);
    }
    DistinctSize(all[..i]);
    SubsetSize(Others(relations, query, candidates, all[i].hop), NodesOf(all[..i]));
  }

  lemma HarmlessIsExact(relations: seq<Relation>, query: string, candidates: seq<string>, limit: nat,
                        rows: seq<Reached>)
    requires Answer(relations, query, limit, rows) && query !in candidates
    requires Harmless(relations, query, candidates, limit)
    ensures Best(rows, candidates) == Contribution(relations, query, candidates, limit)
  {
    var all: seq<Reached> :| Listing(relations, query, limit, all) && rows == all[..Min(|all|, RESULT_LIMIT)];
    CutListing(relations, query, candidates, limit, all, |rows|);
    if FirstHit(all, candidates) < |all| {
      FirstHitAfterOthers(relations, query, candidates, limit, all);
    }
  }

  /** Where the cut can do harm, an answer that loses the contribution. */
  lemma HarmfulAnswer(relations: seq<Relation>, query: string, candidates: seq<string>, limit: nat)
    returns (rows: seq<Reached>)
    requires query !in candidates && !Harmless(relations, query, candidates, limit)
    ensures Answer(relations, query, limit, rows)
    ensures Best(rows, candidates) == 0.0 < Contribution(relations, query, candidates, limit)
  {
    var all := LatestListing(relations, query, candidates, limit);
    rows := all[..Min(|all|, RESULT_LIMIT)];
    CutListing(relations, query, candidates, limit, all, |rows|);
    OthersBeforeFirstHit(relations, query, candidates, limit, all);
  }

  /** Every answer gives an entity its exact contribution if and only if fewer than 256 other entities, not
      counting candidates, are as near as the nearest candidate. */
  lemma CutIsHarmlessIff(relations: seq<Relation>, query: string, candidates: seq<string>, limit: nat)
    requires query !in candidates
    ensures (forall rows | Answer(relations, query, limit, rows) ::
               Best(rows, candidates) == Contribution(relations, query, candidates, limit))
            <==> Harmless(relations, query, candidates, limit)
  {
    if Harmless(relations, query, candidates, limit) {
      forall rows | Answer(relations, query, limit, rows)
        ensures Best(rows, candidates) == Contribution(relations, query, candidates, limit)
      {
        HarmlessIsExact(relations, query, candidates, limit, rows);
      }
    } else {
      var rows := HarmfulAnswer(relations, query, candidates, limit);
    }
  }

  /** What the answer rows yield for one entity is its contribution, 1 / 2^d for a nearest candidate `d` hops away, or
      0 because the cut took all the candidates away; it is the contribution when the entity reaches no more others
      than an answer holds. */
  lemma ContributionIsExactOrNothing(relations: seq<Relation>, query: string, candidates: seq<string>, limit: nat,
                                     rows: seq<Reached>)
    requires Answer(relations, query, limit, rows) && query !in candidates
    ensures var exact := Contribution(relations, query, candidates, limit);
            && (Best(rows, candidates) == exact || Best(rows, candidates) == 0.0)
            && (forall d: nat | d <= limit && NearestAt(relations, query, candidates, d) :: TimesPow2(exact, d) == 1.0)
            && (NoneWithin(relations, query, candidates, limit) ==> exact == 0.0)
            && (|ByLevel(relations, query, limit)| <= 256 ==> Best(rows, candidates) == exact)
  {
    ContributionIs(relations, query, candidates, limit);
    var all: seq<Reached> :| Listing(relations, query, limit, all) && rows == all[..Min(|all|, RESULT_LIMIT)];
    CutListing(relations, query, candidates, limit, all, |rows|);
    ByLevelIsListing(relations, query, limit);
    ListingsAlike(relations, query, limit, all, ByLevel(relations, query, limit));
  }

  // ---------------------------------------------------------------- a star

  function Strokes(n: nat): (s: string)
    ensures |s| == n && (n > 0 ==> s[0] == 'x')
  {
    if n == 0 then [] else ['x'] + Strokes(n - 1)
  }

  /** One relation from the hub to the goal and one to each of `n` other entities. */
  function Star(hub: string, goal: string, n: nat): (relations: seq<Relation>)
    ensures |relations| == n + 1
  {
    if n == 0 then [Relation(hub, goal, "knows")]
    else Star(hub, goal, n - 1) + [Relation(hub, Strokes(n), "knows")]
  }

  function Leaves(n: nat): (leaves: set<string>)
    ensures |leaves| == n
    ensures forall leaf | leaf in leaves :: 0 < |leaf| <= n && leaf[0] == 'x'
  {
    if n == 0 then {} else Leaves(n - 1) + {Strokes(n)}
  }

  lemma {:induction false} StarEdge(hub: string, goal: string, n: nat, b: string)
    requires b == goal || b in Leaves(n)
    ensures exists r :: r in Star(hub, goal, n) && r.src == hub && r.dst == b
  {
    if n == 0 {
      assert Relation(hub, b, "knows") in Star(hub, goal, 0);
    } else if b == goal || b in Leaves(n - 1) {
      StarEdge(hub, goal, n - 1, b);
      var r :| r in Star(hub, goal, n - 1) && r.src == hub && r.dst == b;
      assert r in Star(hub, goal, n);
    } else {
      assert Relation(hub, b, "knows") in Star(hub, goal, n);
    }
  }

  lemma OneStep(relations: seq<Relation>, a: string, b: string)
    requires Edge(relations, a, b)
    ensures Connected(relations, a, b, 1)
  {
    WalkOfNoSteps(relations, a, a);
    ExtendWalk(relations, a, a, b, 0);
  }

  lemma GoalIsNearest(hub: string, goal: string, n: nat)
    requires hub != goal
    ensures NearestAt(Star(hub, goal, n), hub, [goal], 1)
  {
    var star := Star(hub, goal, n);
    StarEdge(hub, goal, n, goal);
    OneStep(star, hub, goal);
    WalkOfNoSteps(star, hub, goal);
  }

  lemma LeavesAreNear(hub: string, goal: string, n: nat)
    requires hub !in Leaves(n) && goal !in Leaves(n)
    ensures n <= |Others(Star(hub, goal, n), hub, [goal], 1)|
  {
    var star := Star(hub, goal, n);
    forall leaf | leaf in Leaves(n) ensures leaf in Others(star, hub, [goal], 1) {
      StarEdge(hub, goal, n, leaf);
      OneStep(star, hub, leaf);
      OthersAre(star, hub, [goal], 1, leaf);
    }
    SubsetSize(Leaves(n), Others(star, hub, [goal], 1));
  }

  lemma StarLosesItsContribution(hub: string, goal: string, n: nat, limit: nat) returns (rows: seq<Reached>)
    requires hub != goal && hub !in Leaves(n) && goal !in Leaves(n) && n >= RESULT_LIMIT && limit >= 1
    ensures Answer(Star(hub, goal, n), hub, limit, rows)
    ensures Best(rows, [goal]) == 0.0 && Contribution(Star(hub, goal, n), hub, [goal], limit) == 0.5
  {
    GoalIsNearest(hub, goal, n);
    LeavesAreNear(hub, goal, n);
    NearestUnique(Star(hub, goal, n), hub, [goal], limit, 1);
    assert Half(1) == Half(0) / 2.0;
    rows := HarmfulAnswer(Star(hub, goal, n), hub, [goal], limit);
  }

  /** An entity related to 256 others and to the only candidate, one hop away: an answer misses the candidate, and
      the entity counts nothing instead of one half. */
  lemma CutLosesAContribution(limit: nat)
    returns (relations: seq<Relation>, query: string, goal: string, rows: seq<Reached>)
    requires limit >= 1
    ensures |relations| == 257 && query != goal && Answer(relations, query, limit, rows)
    ensures Best(rows, [goal]) == 0.0 && Contribution(relations, query, [goal], limit) == 0.5
  {
    var n: nat :| n == RESULT_LIMIT;
    query, goal := "h", "g";
    relations := Star(query, goal, n);
    rows := StarLosesItsContribution(query, goal, n, limit);
  }

  // ---------------------------------------------------------------- the loop over the entities

  lemma DirectHitContributesOne(relations: seq<Relation>, query: string, candidates: seq<string>, limit: nat)
    requires query in candidates
    ensures Contribution(relations, query, candidates, limit) == 1.0
  {
    WalkOfNoSteps(relations, query, query);
    NearestUnique(relations, query, candidates, limit, 0);
  }

  lemma {:induction false} DirectHitWins(relations: seq<Relation>, queries: seq<string>, i: nat, n: nat,
                                         candidates: seq<string>, limit: nat)
    requires i < n <= |queries| && queries[i] in candidates
    ensures Affinity(relations, queries, n, candidates, limit) == 1.0
  {
    if i == n - 1 {
      DirectHitContributesOne(relations, queries[i], candidates, limit);
    } else {
      DirectHitWins(relations, queries, i, n - 1, candidates, limit);
    }
  }

  function Clamp(hopLimit: nat): nat {
    if hopLimit < 1 then 1 else Min(hopLimit, GRAPH_HOP_LIMIT)
  }

  /** No entity reaches more others than an answer can hold. */
  predicate NothingCut(relations: seq<Relation>, queries: seq<string>, limit: nat) {
    forall q | q in queries :: |ByLevel(relations, q, limit)| <= RESULT_LIMIT
  }

  ghost predicate NothingLost(relations: seq<Relation>, queries: seq<string>, candidates: seq<string>, limit: nat) {
    forall q | q in queries && q !in candidates :: Harmless(relations, q, candidates, limit)
  }

  lemma NothingCutNothingLost(relations: seq<Relation>, queries: seq<string>, candidates: seq<string>, limit: nat)
    requires NothingCut(relations, queries, limit)
    ensures NothingLost(relations, queries, candidates, limit)
  {
    forall q | q in queries && q !in candidates ensures Harmless(relations, q, candidates, limit) {
      if !Harmless(relations, q, candidates, limit) {
        var rows := HarmfulAnswer(relations, q, candidates, limit);
        ContributionIsExactOrNothing(relations, q, candidates, limit, rows);
      }
    }
  }

  /** From entity `i` on, a query fails before an entity is met that is a candidate itself. */
  predicate FailsFrom(queries: seq<string>, candidates: seq<string>, ok: seq<bool>, i: nat)
    requires |ok| == |queries|
    decreases |queries| - i
  {
    i < |queries| && queries[i] !in candidates && (!ok[i] || FailsFrom(queries, candidates, ok, i + 1))
  }

  /** Some entity from `i` on is a candidate itself. */
  predicate HitFrom(queries: seq<string>, candidates: seq<string>, i: nat)
    decreases |queries| - i
  {
    i < |queries| && (queries[i] in candidates || HitFrom(queries, candidates, i + 1))
  }

  /** The query; rows of equal hop come in whatever order the database gives them. */
  method NHopReachable(relations: seq<Relation>, start: string, limit: nat) returns (rows: seq<Reached>)
    ensures Answer(relations, start, limit, rows)
    ensures |rows| == Min(|ByLevel(relations, start, limit)|, 256)
  {
    ByLevelIsListing(relations, start, limit);
    var all := ByLevel(relations, start, limit);
    rows := all[..Min(|all|, RESULT_LIMIT)];
  }

  /** Folds the contribution of entity `i` into the best score so far. */
  method FoldQuery(relations: seq<Relation>, queries: seq<string>, i: nat, candidates: seq<string>, limit: nat,
                   best: real)
    returns (more: real)
    requires i < |queries| && queries[i] !in candidates
    requires 0.0 <= best <= Affinity(relations, queries, i, candidates, limit)
    ensures 0.0 <= more <= Affinity(relations, queries, i + 1, candidates, limit)
    ensures Harmless(relations, queries[i], candidates, limit)
            && best == Affinity(relations, queries, i, candidates, limit)
            ==> more == Affinity(relations, queries, i + 1, candidates, limit)
  {
    var rows := NHopReachable(relations, queries[i], limit);
    assert !Meet([queries[i]], candidates);
    var aff := AffinityFromReachability([queries[i]], candidates, rows);
    ContributionIsExactOrNothing(relations, queries[i], candidates, limit, rows);
    if Harmless(relations, queries[i], candidates, limit) {
      HarmlessIsExact(relations, queries[i], candidates, limit, rows);
    }
    more := if aff > best then aff else best;
  }

  /** One query per entity, stopping at a direct hit or at a query that fails. The score never exceeds the
      affinity; it is the affinity, 1 / 2^d for a nearest candidate `d` hops away, when an entity is a candidate itself
      or no cut can do harm. */
  method GraphAffinity(relations: seq<Relation>, queries: seq<string>, candidates: seq<string>, hopLimit: nat,
                       ok: seq<bool>)
    returns (result: Result<real, string>)
    requires |ok| == |queries|
    ensures result.Err? <==> candidates != [] && FailsFrom(queries, candidates, ok, 0)
    ensures var limit := if hopLimit <= 1 then 1 else 2;
            var affinity := Affinity(relations, queries, |queries|, candidates, limit);
            result.Ok? ==>
              && 0.0 <= result.value <= affinity
              && (NothingLost(relations, queries, candidates, limit) || HitFrom(queries, candidates, 0) ==>
                    result.value == affinity)
              && (forall d: nat | d <= limit && NearestOfAll(relations, queries, |queries|, candidates, d) ::
                    TimesPow2(affinity, d) == 1.0)
              && (NoneNearer(relations, queries, |queries|, candidates, limit + 1) ==> affinity == 0.0)
  {
    var limit := Clamp(hopLimit);
    AffinityIs(relations, queries, candidates, limit);
    if queries == [] || candidates == [] {
      NoPairs(relations, queries, |queries|, candidates, limit);
      return Ok(0.0);
    }
    var best := 0.0;
    for i := 0 to |queries|
      invariant FailsFrom(queries, candidates, ok, 0) == FailsFrom(queries, candidates, ok, i)
      invariant HitFrom(queries, candidates, 0) == HitFrom(queries, candidates, i)
      invariant 0.0 <= best <= Affinity(relations, queries, i, candidates, limit)
      invariant NothingLost(relations, queries, candidates, limit) ==>
                  best == Affinity(relations, queries, i, candidates, limit)
    {
      if queries[i] in candidates {
        DirectHitWins(relations, queries, i, |queries|, candidates, limit);
        return Ok(1.0);
      }
      if !ok[i] {
        return Err("n_hop_reachable");
      }
      best := FoldQuery(relations, queries, i, candidates, limit, best);
      assert queries[i] in queries;
    }
    return Ok(best);
  }

  lemma {:induction false} NoPairs(relations: seq<Relation>, queries: seq<string>, n: nat, candidates: seq<string>,
                                   limit: nat)
    requires n <= |queries| && (queries == [] || candidates == [])
    ensures Affinity(relations, queries, n, candidates, limit) == 0.0
  {
    if n > 0 {
      NoPairs(relations, queries, n - 1, candidates, limit);
      NearestIs(relations, queries[n - 1], candidates, limit);
    }
  }
}
