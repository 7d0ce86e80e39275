/** Exactly when every memory merged away in a pass still leads to a live one, whatever calls fail. */
module SagaSurvival {
  import opened Basics
  import opened Items
  import opened Saga
  import opened SagaMerge

  // ---------------------------------------------------------------- ways along recorded merges

  ghost predicate Leads(edges: seq<MergeRow>, a: string, b: string) {
    exists way :: IsWay(edges, way) && way[0] == a && way[|way| - 1] == b
  }

  predicate IsSourceOf(edges: seq<MergeRow>, id: string) {
    exists e :: e in edges && e.fact.sourceId == id
  }

  ghost predicate DistinctEdges(edges: seq<MergeRow>) {
    forall i, j | 0 <= i < j < |edges| :: edges[i].fact.sourceId != edges[j].fact.sourceId
  }

  /** No merge goes into a memory that the merges recorded before it already lead from, back to its source. */
  ghost predicate NoWayBack(edges: seq<MergeRow>) {
    forall i | 0 <= i < |edges| :: !Leads(edges[..i], edges[i].fact.targetId, edges[i].fact.sourceId)
  }

  ghost predicate Acyclic(edges: seq<MergeRow>) {
    forall way | IsWay(edges, way) && |way| > 1 :: way[0] != way[|way| - 1]
  }

  lemma StayWay(edges: seq<MergeRow>, more: seq<MergeRow>, way: seq<string>)
    requires IsWay(edges, way)
    ensures IsWay(edges + more, way)
  {
    forall i | 0 <= i < |way| - 1 ensures Step(edges + more, way[i], way[i + 1]) {
      assert Step(edges, way[i], way[i + 1]);
      var e :| e in edges && e.fact.sourceId == way[i] && e.fact.targetId == way[i + 1];
      assert e in edges + more;
    }
  }

  lemma JoinWays(edges: seq<MergeRow>, a: seq<string>, b: seq<string>)
    requires IsWay(edges, a) && IsWay(edges, b) && Step(edges, a[|a| - 1], b[0])
    ensures IsWay(edges, a + b)
  {
    var way := a + b;
    forall i | 0 <= i < |way| - 1 ensures Step(edges, way[i], way[i + 1]) {
      if i < |a| - 1 {
        assert Step(edges, a[i], a[i + 1]);
      } else if i >= |a| {
        assert Step(edges, b[i - |a|], b[i - |a| + 1]);
      }
    }
  }

  /** Without ways back, every memory leads to one that was not merged away. */
  lemma {:induction false} EndOf(edges: seq<MergeRow>, id: string) returns (way: seq<string>)
    requires NoWayBack(edges)
    ensures IsWay(edges, way) && way[0] == id && !IsSourceOf(edges, way[|way| - 1])
    decreases |edges|
  {
    if edges == [] {
      way := [id];
    } else {
      var before := edges[..|edges| - 1];
      var last := edges[|edges| - 1];
      assert edges == before + [last];
      NoWayBackBefore(edges);
      way := EndOf(before, id);
      if way[|way| - 1] == last.fact.sourceId {
        var rest := EndOf(before, last.fact.targetId);
        assert rest[|rest| - 1] != last.fact.sourceId;
        GoesOn(before, last, way, rest);
        way := way + rest;
        StillNoSource(before, last, way[|way| - 1]);
      } else {
        StayWay(before, [last], way);
        StillNoSource(before, last, way[|way| - 1]);
      }
    }
  }

  lemma GoesOn(before: seq<MergeRow>, last: MergeRow, way: seq<string>, rest: seq<string>)
    requires IsWay(before, way) && way[|way| - 1] == last.fact.sourceId
    requires IsWay(before, rest) && rest[0] == last.fact.targetId
    ensures IsWay(before + [last], way + rest)
  {
    StayWay(before, [last], way);
    StayWay(before, [last], rest);
    assert last in before + [last];
    JoinWays(before + [last], way, rest);
  }

  lemma StillNoSource(before: seq<MergeRow>, last: MergeRow, id: string)
    requires !IsSourceOf(before, id) && id != last.fact.sourceId
    ensures !IsSourceOf(before + [last], id)
  {
  }

  lemma NoWayBackBefore(edges: seq<MergeRow>)
    requires NoWayBack(edges) && edges != []
    ensures NoWayBack(edges[..|edges| - 1])
    ensures !Leads(edges[..|edges| - 1], edges[|edges| - 1].fact.targetId, edges[|edges| - 1].fact.sourceId)
  {
    var before := edges[..|edges| - 1];
    forall i | 0 <= i < |before| ensures !Leads(before[..i], before[i].fact.targetId, before[i].fact.sourceId) {
      assert before[..i] == edges[..i] && before[i] == edges[i];
    }
  }

  /** A merged memory has only one way to go. */
  lemma OneWay(edges: seq<MergeRow>, a: string, b: string, c: string)
    requires DistinctEdges(edges) && Step(edges, a, b) && Step(edges, a, c)
    ensures b == c
  {
    var e :| e in edges && e.fact.sourceId == a && e.fact.targetId == b;
    var f :| f in edges && f.fact.sourceId == a && f.fact.targetId == c;
    var i :| 0 <= i < |edges| && edges[i] == e;
    var j :| 0 <= j < |edges| && edges[j] == f;
    assert !(i < j) && !(j < i);
  }

  /** Once on a cycle, always on it. */
  lemma {:induction false} TrappedOnCycle(edges: seq<MergeRow>, cycle: seq<string>, way: seq<string>, j: nat)
    requires DistinctEdges(edges) && IsWay(edges, cycle) && |cycle| > 1 && cycle[0] == cycle[|cycle| - 1]
    requires IsWay(edges, way) && way[0] in cycle && j < |way|
    ensures way[j] in cycle
  {
    if j > 0 {
      TrappedOnCycle(edges, cycle, way, j - 1);
      assert Step(edges, way[j - 1], way[j]);
      var k := NextOnCycle(edges, cycle, way[j - 1]);
      OneWay(edges, way[j - 1], cycle[k], way[j]);
    }
  }

  lemma NextOnCycle(edges: seq<MergeRow>, cycle: seq<string>, id: string) returns (k: nat)
    requires IsWay(edges, cycle) && |cycle| > 1 && cycle[0] == cycle[|cycle| - 1] && id in cycle
    ensures 0 < k < |cycle| && Step(edges, id, cycle[k])
  {
    var i :| 0 <= i < |cycle| && cycle[i] == id;
    k := if i == |cycle| - 1 then 1 else i + 1;
    assert Step(edges, cycle[k - 1], cycle[k]);
  }

  lemma CycleIsMergedAway(edges: seq<MergeRow>, cycle: seq<string>, id: string)
    requires IsWay(edges, cycle) && |cycle| > 1 && cycle[0] == cycle[|cycle| - 1] && id in cycle
    ensures IsSourceOf(edges, id)
  {
    var k := NextOnCycle(edges, cycle, id);
  }

  /** A merge into a memory that leads back to its source closes a cycle. */
  lemma WayBackCloses(edges: seq<MergeRow>, i: nat) returns (cycle: seq<string>)
    requires i < |edges| && Leads(edges[..i], edges[i].fact.targetId, edges[i].fact.sourceId)
    ensures IsWay(edges, cycle) && |cycle| > 1 && cycle[0] == cycle[|cycle| - 1] == edges[i].fact.sourceId
  {
    var back :| IsWay(edges[..i], back) && back[0] == edges[i].fact.targetId
                && back[|back| - 1] == edges[i].fact.sourceId;
    StayWay(edges[..i], edges[i..], back);
    assert edges[..i] + edges[i..] == edges && edges[i] in edges;
    var first := [edges[i].fact.sourceId];
    assert Step(edges, first[0], back[0]);
    JoinWays(edges, first, back);
    cycle := first + back;
  }

  /** There is a cycle exactly when some merge went into a memory that already led back to its source. */
  lemma AcyclicIff(edges: seq<MergeRow>)
    requires DistinctEdges(edges)
    ensures Acyclic(edges) <==> NoWayBack(edges)
  {
    if !NoWayBack(edges) {
      var i :| 0 <= i < |edges| && Leads(edges[..i], edges[i].fact.targetId, edges[i].fact.sourceId);
      var cycle := WayBackCloses(edges, i);
    } else {
      forall cycle | IsWay(edges, cycle) && |cycle| > 1 ensures cycle[0] != cycle[|cycle| - 1] {
        if cycle[0] == cycle[|cycle| - 1] {
          var way := EndOf(edges, cycle[0]);
          TrappedOnCycle(edges, cycle, way, |way| - 1);
          CycleIsMergedAway(edges, cycle, way[|way| - 1]);
        }
      }
    }
  }

  // ---------------------------------------------------------------- survival

  /** No recorded target is dead without having been merged on. */
  predicate NoLostTarget(edges: seq<MergeRow>, rows: Rows) {
    forall e | e in edges ::
      IsSourceOf(edges, e.fact.targetId) || (e.fact.targetId in rows && !rows[e.fact.targetId].tombstone)
  }

  ghost predicate SourcesDead(edges: seq<MergeRow>, rows: Rows) {
    forall e | e in edges :: e.fact.sourceId in rows ==> rows[e.fact.sourceId].tombstone
  }

  ghost predicate AllSurvive(edges: seq<MergeRow>, rows: Rows) {
    forall e | e in edges :: Survives(edges, rows, e.fact.sourceId)
  }

  lemma SurvivesWithoutWayBack(edges: seq<MergeRow>, rows: Rows, e: MergeRow)
    requires NoWayBack(edges) && NoLostTarget(edges, rows) && e in edges
    ensures Survives(edges, rows, e.fact.sourceId)
  {
    var way := EndOf(edges, e.fact.sourceId);
    var n := |way| - 1;
    assert IsSourceOf(edges, e.fact.sourceId);
    assert Step(edges, way[n - 1], way[n]);
    var into :| into in edges && into.fact.sourceId == way[n - 1] && into.fact.targetId == way[n];
  }

  lemma SurvivorsHaveNoWayBack(edges: seq<MergeRow>, rows: Rows, i: nat)
    requires DistinctEdges(edges) && SourcesDead(edges, rows) && AllSurvive(edges, rows) && i < |edges|
    ensures !Leads(edges[..i], edges[i].fact.targetId, edges[i].fact.sourceId)
  {
    if Leads(edges[..i], edges[i].fact.targetId, edges[i].fact.sourceId) {
      var cycle := WayBackCloses(edges, i);
      assert edges[i] in edges && Survives(edges, rows, edges[i].fact.sourceId);
      var way :| IsWay(edges, way) && way[0] == edges[i].fact.sourceId
                 && way[|way| - 1] in rows && !rows[way[|way| - 1]].tombstone;
      TrappedOnCycle(edges, cycle, way, |way| - 1);
      CycleIsMergedAway(edges, cycle, way[|way| - 1]);
      assert false;
    }
  }

  lemma SurvivorsLoseNoTarget(edges: seq<MergeRow>, rows: Rows, e: MergeRow)
    requires DistinctEdges(edges) && SourcesDead(edges, rows) && e in edges
    requires Survives(edges, rows, e.fact.sourceId)
    ensures IsSourceOf(edges, e.fact.targetId) || (e.fact.targetId in rows && !rows[e.fact.targetId].tombstone)
  {
    var way :| IsWay(edges, way) && way[0] == e.fact.sourceId
               && way[|way| - 1] in rows && !rows[way[|way| - 1]].tombstone;
    assert |way| > 1;
    assert Step(edges, way[0], way[1]) && Step(edges, e.fact.sourceId, e.fact.targetId);
    OneWay(edges, e.fact.sourceId, way[1], e.fact.targetId);
    if |way| > 2 {
      assert Step(edges, way[1], way[2]);
    }
  }

  /** Every merged memory leads to a live one exactly when no merge went back to its own source and no target
      was lost on the way. */
  lemma AllSurviveIff(edges: seq<MergeRow>, rows: Rows)
    requires DistinctEdges(edges) && SourcesDead(edges, rows)
    ensures AllSurvive(edges, rows) <==> NoWayBack(edges) && NoLostTarget(edges, rows)
  {
    if NoWayBack(edges) && NoLostTarget(edges, rows) {
      forall e | e in edges ensures Survives(edges, rows, e.fact.sourceId) {
        SurvivesWithoutWayBack(edges, rows, e);
      }
    }
    if AllSurvive(edges, rows) {
      forall i | 0 <= i < |edges| ensures !Leads(edges[..i], edges[i].fact.targetId, edges[i].fact.sourceId) {
        SurvivorsHaveNoWayBack(edges, rows, i);
      }
      forall e | e in edges
        ensures IsSourceOf(edges, e.fact.targetId) || (e.fact.targetId in rows && !rows[e.fact.targetId].tombstone)
      {
        SurvivorsLoseNoTarget(edges, rows, e);
      }
    }
  }

  // ---------------------------------------------------------------- one merge

  lemma NoWayBackSnoc(edges: seq<MergeRow>, row: MergeRow)
    ensures NoWayBack(edges + [row])
            <==> NoWayBack(edges) && !Leads(edges, row.fact.targetId, row.fact.sourceId)
  {
    var all := edges + [row];
    assert all[..|edges|] == edges && all[|edges|] == row;
    if NoWayBack(all) {
      NoWayBackBefore(all);
    } else {
      var i :| 0 <= i < |all| && Leads(all[..i], all[i].fact.targetId, all[i].fact.sourceId);
      assert i < |edges| ==> all[..i] == edges[..i] && all[i] == edges[i];
    }
  }

  /** While every merged memory leads to a live one, merging a live memory into another keeps it so exactly
      when the target does not already lead back to the source. */
  lemma MergeKeepsSurvivalIff(edges: seq<MergeRow>, rows: Rows, row: MergeRow)
    requires DistinctEdges(edges + [row]) && SourcesDead(edges, rows) && AllSurvive(edges, rows)
    requires var tgt := row.fact.targetId;
             IsSourceOf(edges, tgt) || (tgt in rows && !rows[tgt].tombstone)
    ensures AllSurvive(edges + [row], WithTombstone(rows, row.fact.sourceId, true))
            <==> !Leads(edges, row.fact.targetId, row.fact.sourceId)
  {
    DistinctBefore(edges, row);
    AllSurviveIff(edges, rows);
    NoWayBackSnoc(edges, row);
    TargetsStay(edges, rows, row);
    AllSurviveIff(edges + [row], WithTombstone(rows, row.fact.sourceId, true));
  }

  lemma DistinctBefore(edges: seq<MergeRow>, row: MergeRow)
    requires DistinctEdges(edges + [row])
    ensures DistinctEdges(edges)
  {
    forall i, j | 0 <= i < j < |edges| ensures edges[i].fact.sourceId != edges[j].fact.sourceId {
      assert (edges + [row])[i] == edges[i] && (edges + [row])[j] == edges[j];
    }
  }

  lemma TargetsStay(edges: seq<MergeRow>, rows: Rows, row: MergeRow)
    requires NoLostTarget(edges, rows)
    requires var tgt := row.fact.targetId;
             IsSourceOf(edges, tgt) || (tgt in rows && !rows[tgt].tombstone)
    ensures NoLostTarget(edges + [row], WithTombstone(rows, row.fact.sourceId, true))
  {
    var all, rows' := edges + [row], WithTombstone(rows, row.fact.sourceId, true);
    forall e | e in all
      ensures IsSourceOf(all, e.fact.targetId) || (e.fact.targetId in rows' && !rows'[e.fact.targetId].tombstone)
    {
      StillSource(edges, row, e.fact.targetId);
      assert e in edges || e == row;
    }
  }

  lemma StillSource(edges: seq<MergeRow>, row: MergeRow, id: string)
    ensures IsSourceOf(edges + [row], id) <==> IsSourceOf(edges, id) || id == row.fact.sourceId
  {
    assert row in edges + [row];
    if e :| e in edges && e.fact.sourceId == id {
      assert e in edges + [row];
    }
  }

  // ---------------------------------------------------------------- the pass

  /** The lookup finds rows that were live when it was built. */
  ghost predicate FindsLive(rows: Rows, index: map<nat, MemoryItem>) {
    forall v | v in index :: index[v].id in rows && !rows[index[v].id].tombstone
  }

  /** What a source does to rows and merge log: nothing, or an undone or half-undone attempt, or a merge. */
  lemma SourceEffect(p: Pass, src: MemoryItem, run: SourceRun, index: map<nat, MemoryItem>, at: nat)
    returns (hit: Option<Hit>)
    requires src.id in p.store.rows
    ensures hit == AttemptOf(p, src, run, index)
    ensures var p' := MergeSource(p, src, run, index, at);
            if hit.None? then p'.store == p.store && p'.merged == p.merged
            else
              && p'.merged == p.merged + (if hit.value.backend.recordOk then 1 else 0)
              && run.hits.Some? && hit.value in run.hits.value && hit.value.vecId in index
              && index[hit.value.vecId].id != src.id
              && var b := hit.value.backend;
                 var dead := p.store.rows[src.id].(tombstone := true);
                 && p'.store.rows == p.store.rows[src.id := if b.recordOk || !b.untombstoneOk then dead
                                                            else dead.(tombstone := false)]
                 && p'.store.merges
                    == p.store.merges + (if b.recordOk then
                         [MergeRow(p.store.nextMergeId, MergeFact(src.id, index[hit.value.vecId].id, MERGE_REASON, at))]
                                         else [])
  {
    hit := AttemptOf(p, src, run, index);
    AttemptIsAll(p, src, run, index, at);
  }

  /** The merges recorded so far come from distinct memories already gone through, which are dead, and go to
      memories that were live when listed. */
  ghost predicate PassShape(st: Store, changed: seq<MemoryItem>, n: nat, st': Store)
    requires n <= |changed|
  {
    var edges := Edges(st, st');
    && st'.merges == st.merges + edges && st'.rows.Keys == st.rows.Keys
    && DistinctEdges(edges) && SourcesDead(edges, st'.rows)
    && (forall e | e in edges :: exists k :: 0 <= k < n && changed[k].id == e.fact.sourceId)
    && (forall e | e in edges :: e.fact.targetId in st.rows && !st.rows[e.fact.targetId].tombstone)
  }

  lemma ShapeAfterMerge(st: Store, changed: seq<MemoryItem>, n: nat, st0: Store, st1: Store, row: MergeRow)
    requires n < |changed| && DistinctIds(changed) && PassShape(st, changed, n, st0)
    requires row.fact.sourceId == changed[n].id && changed[n].id in st0.rows
    requires row.fact.targetId in st.rows && !st.rows[row.fact.targetId].tombstone
    requires st1.merges == st0.merges + [row]
    requires st1.rows == st0.rows[changed[n].id := st0.rows[changed[n].id].(tombstone := true)]
    ensures PassShape(st, changed, n + 1, st1)
  {
    var edges := Edges(st, st0);
    EdgesSnoc(st, st0, st1, row);
    assert Edges(st, st1) == edges + [row];
    forall e | e in edges ensures e.fact.sourceId != changed[n].id {
      var k :| 0 <= k < n && changed[k].id == e.fact.sourceId;
    }
    forall e | e in edges + [row] ensures exists k :: 0 <= k < n + 1 && changed[k].id == e.fact.sourceId {
      if e in edges {
        var k :| 0 <= k < n && changed[k].id == e.fact.sourceId;
        assert 0 <= k < n + 1;
      } else {
        assert changed[n].id == e.fact.sourceId;
      }
    }
  }

  lemma ShapeAfterAttempt(st: Store, changed: seq<MemoryItem>, n: nat, st0: Store, st1: Store)
    requires n < |changed| && DistinctIds(changed) && PassShape(st, changed, n, st0)
    requires st1.merges == st0.merges && st1.rows.Keys == st0.rows.Keys
    requires forall id | id in st0.rows && id != changed[n].id :: st1.rows[id] == st0.rows[id]
    ensures PassShape(st, changed, n + 1, st1)
  {
    var edges := Edges(st, st0);
    assert Edges(st, st1) == edges;
    forall e | e in edges
      ensures e.fact.sourceId != changed[n].id
      ensures exists k :: 0 <= k < n + 1 && changed[k].id == e.fact.sourceId
    {
      var k :| 0 <= k < n && changed[k].id == e.fact.sourceId;
      assert 0 <= k < n + 1;
    }
  }

  lemma {:induction false} PassKeepsShape(st: Store, changed: seq<MemoryItem>, runs: seq<SourceRun>,
                                          index: map<nat, MemoryItem>, at: nat, n: nat)
    requires n <= |changed| == |runs| && DistinctIds(changed) && FindsLive(st.rows, index)
    requires forall i | 0 <= i < |changed| :: changed[i].id in st.rows
    ensures PassShape(st, changed, n, MergePass(st, changed, runs, index, at, n).store)
    decreases n
  {
    if n == 0 {
      assert Edges(st, st) == [];
    } else {
      PassKeepsShape(st, changed, runs, index, at, n - 1);
      var p := MergePass(st, changed, runs, index, at, n - 1);
      var p' := MergePass(st, changed, runs, index, at, n);
      assert changed[n - 1].id in p.store.rows;
      var hit := SourceEffect(p, changed[n - 1], runs[n - 1], index, at);
      if hit.Some? && hit.value.backend.recordOk {
        ShapeAfterMerge(st, changed, n - 1, p.store, p'.store, p'.store.merges[|p.store.merges|]);
      } else {
        ShapeAfterAttempt(st, changed, n - 1, p.store, p'.store);
      }
    }
  }

  lemma {:induction false} PassCounts(st: Store, changed: seq<MemoryItem>, runs: seq<SourceRun>,
                                      index: map<nat, MemoryItem>, at: nat, n: nat)
    requires n <= |changed| == |runs| && forall i | 0 <= i < |changed| :: changed[i].id in st.rows
    ensures var p := MergePass(st, changed, runs, index, at, n);
            p.store.rows.Keys == st.rows.Keys && |p.store.merges| == |st.merges| + p.merged
    decreases n
  {
    if n > 0 {
      PassCounts(st, changed, runs, index, at, n - 1);
      var hit := SourceEffect(MergePass(st, changed, runs, index, at, n - 1), changed[n - 1], runs[n - 1], index, at);
    }
  }

  lemma {:induction false} FindsListed(all: seq<MemoryItem>)
    ensures forall v | v in IndexByRef(all) :: IndexByRef(all)[v] in all
  {
    if all != [] {
      FindsListed(all[..|all| - 1]);
      assert all == all[..|all| - 1] + [all[|all| - 1]];
    }
  }

  // ---------------------------------------------------------------- what the attempts decide

  /** The attempt that the pass makes for its memory number `i`, if it makes one. */
  function AttemptAt(st: Store, changed: seq<MemoryItem>, runs: seq<SourceRun>, index: map<nat, MemoryItem>, at: nat,
                     i: nat): Option<Hit>
    requires i < |changed| == |runs|
  {
    AttemptOf(MergePass(st, changed, runs, index, at, i), changed[i], runs[i], index)
  }

  /** Whether a row is tombstoned after an attempt on it. */
  function DeadAfter(dead: bool, h: Option<Hit>): bool {
    if h.None? then dead else h.value.backend.recordOk || !h.value.backend.untombstoneOk
  }

  /** A memory that is not gone through keeps its row. */
  lemma {:induction false} RowLeft(st: Store, changed: seq<MemoryItem>, runs: seq<SourceRun>,
                                   index: map<nat, MemoryItem>, at: nat, n: nat, id: string)
    requires n <= |changed| == |runs| && forall i | 0 <= i < |changed| :: changed[i].id in st.rows
    requires id in st.rows && forall i | 0 <= i < n :: changed[i].id != id
    ensures var st' := MergePass(st, changed, runs, index, at, n).store; id in st'.rows && st'.rows[id] == st.rows[id]
    decreases n
  {
    if n > 0 {
      RowLeft(st, changed, runs, index, at, n - 1, id);
      PassCounts(st, changed, runs, index, at, n - 1);
      var hit := SourceEffect(MergePass(st, changed, runs, index, at, n - 1), changed[n - 1], runs[n - 1], index, at);
    }
  }

  /** Its own attempt decides about a memory's row: nothing but its tombstone changes. */
  lemma {:induction false} AttemptDecidesRow(st: Store, changed: seq<MemoryItem>, runs: seq<SourceRun>,
                                             index: map<nat, MemoryItem>, at: nat, n: nat, i: nat)
    requires i < n <= |changed| == |runs| && DistinctIds(changed)
    requires forall k | 0 <= k < |changed| :: changed[k].id in st.rows
    ensures var st' := MergePass(st, changed, runs, index, at, n).store;
            var h := AttemptAt(st, changed, runs, index, at, i);
            var row := st.rows[changed[i].id];
            && changed[i].id in st'.rows
            && st'.rows[changed[i].id] == row.(tombstone := DeadAfter(row.tombstone, h))
    decreases n
  {
    var p := MergePass(st, changed, runs, index, at, n - 1);
    PassCounts(st, changed, runs, index, at, n - 1);
    var hit := SourceEffect(p, changed[n - 1], runs[n - 1], index, at);
    if i < n - 1 {
      AttemptDecidesRow(st, changed, runs, index, at, n - 1, i);
    } else {
      RowLeft(st, changed, runs, index, at, n - 1, changed[i].id);
    }
  }

  /** A memory gone through becomes a source exactly when its attempt was recorded. */
  lemma SourceStep(st: Store, p: Pass, src: MemoryItem, run: SourceRun, index: map<nat, MemoryItem>, at: nat,
                   id: string)
    requires src.id in p.store.rows && p.store.merges == st.merges + Edges(st, p.store)
    ensures var h := AttemptOf(p, src, run, index);
            IsSourceOf(Edges(st, MergeSource(p, src, run, index, at).store), id)
            <==> IsSourceOf(Edges(st, p.store), id) || (id == src.id && h.Some? && h.value.backend.recordOk)
  {
    var p' := MergeSource(p, src, run, index, at);
    var h := SourceEffect(p, src, run, index, at);
    if h.Some? && h.value.backend.recordOk {
      var row := p'.store.merges[|p.store.merges|];
      EdgesSnoc(st, p.store, p'.store, row);
      StillSource(Edges(st, p.store), row, id);
    } else {
      assert Edges(st, p'.store) == Edges(st, p.store);
    }
  }

  /** And it decides whether the memory is merged away. */
  lemma {:induction false} AttemptDecidesSource(st: Store, changed: seq<MemoryItem>, runs: seq<SourceRun>,
                                                index: map<nat, MemoryItem>, at: nat, n: nat, i: nat)
    requires i < n <= |changed| == |runs| && DistinctIds(changed) && FindsLive(st.rows, index)
    requires forall k | 0 <= k < |changed| :: changed[k].id in st.rows
    ensures var h := AttemptAt(st, changed, runs, index, at, i);
            IsSourceOf(Edges(st, MergePass(st, changed, runs, index, at, n).store), changed[i].id)
            <==> h.Some? && h.value.backend.recordOk
    decreases n
  {
    var p := MergePass(st, changed, runs, index, at, n - 1);
    PassKeepsShape(st, changed, runs, index, at, n - 1);
    SourceStep(st, p, changed[n - 1], runs[n - 1], index, at, changed[i].id);
    if i < n - 1 {
      AttemptDecidesSource(st, changed, runs, index, at, n - 1, i);
    } else {
      NotYetSource(st, changed, n - 1, p.store);
    }
  }

  lemma NotYetSource(st: Store, changed: seq<MemoryItem>, n: nat, st': Store)
    requires n < |changed| && DistinctIds(changed) && PassShape(st, changed, n, st')
    ensures !IsSourceOf(Edges(st, st'), changed[n].id)
  {
    forall e | e in Edges(st, st') ensures e.fact.sourceId != changed[n].id {
      var k :| 0 <= k < n && changed[k].id == e.fact.sourceId;
    }
  }

  /** Its own attempt left the memory tombstoned and unrecorded. */
  predicate HalfMerged(st: Store, changed: seq<MemoryItem>, runs: seq<SourceRun>, index: map<nat, MemoryItem>, at: nat,
                       i: nat)
    requires i < |changed| == |runs|
  {
    var h := AttemptAt(st, changed, runs, index, at, i);
    h.Some? && !h.value.backend.recordOk && !h.value.backend.untombstoneOk
  }

  /** No memory that others were merged into was left half merged itself. */
  ghost predicate NoHalfMergedTarget(st: Store, changed: seq<MemoryItem>, runs: seq<SourceRun>,
                                     index: map<nat, MemoryItem>, at: nat)
    requires |changed| == |runs|
  {
    forall e, i: nat | e in Edges(st, MergePass(st, changed, runs, index, at, |changed|).store)
                       && i < |changed| && changed[i].id == e.fact.targetId ::
      !HalfMerged(st, changed, runs, index, at, i)
  }

  /** A target is lost exactly when it was half merged. */
  lemma TargetLostIff(st: Store, changed: seq<MemoryItem>, runs: seq<SourceRun>, index: map<nat, MemoryItem>, at: nat,
                      e: MergeRow)
    requires |changed| == |runs| && DistinctIds(changed) && FindsLive(st.rows, index)
    requires forall i | 0 <= i < |changed| :: changed[i].id in st.rows
    requires e in Edges(st, MergePass(st, changed, runs, index, at, |changed|).store)
    ensures var st' := MergePass(st, changed, runs, index, at, |changed|).store;
            var tgt := e.fact.targetId;
            (IsSourceOf(Edges(st, st'), tgt) || (tgt in st'.rows && !st'.rows[tgt].tombstone))
            <==> forall i: nat | i < |changed| && changed[i].id == tgt :: !HalfMerged(st, changed, runs, index, at, i)
  {
    PassKeepsShape(st, changed, runs, index, at, |changed|);
    if i: nat :| i < |changed| && changed[i].id == e.fact.targetId {
      AttemptDecidesRow(st, changed, runs, index, at, |changed|, i);
      AttemptDecidesSource(st, changed, runs, index, at, |changed|, i);
    } else {
      RowLeft(st, changed, runs, index, at, |changed|, e.fact.targetId);
    }
  }

  lemma NoLostTargetIff(st: Store, changed: seq<MemoryItem>, runs: seq<SourceRun>, index: map<nat, MemoryItem>, at: nat)
    requires |changed| == |runs| && DistinctIds(changed) && FindsLive(st.rows, index)
    requires forall i | 0 <= i < |changed| :: changed[i].id in st.rows
    ensures var st' := MergePass(st, changed, runs, index, at, |changed|).store;
            NoLostTarget(Edges(st, st'), st'.rows) <==> NoHalfMergedTarget(st, changed, runs, index, at)
  {
    var st' := MergePass(st, changed, runs, index, at, |changed|).store;
    forall e | e in Edges(st, st')
      ensures var tgt := e.fact.targetId;
              (IsSourceOf(Edges(st, st'), tgt) || (tgt in st'.rows && !st'.rows[tgt].tombstone))
              <==> forall i: nat | i < |changed| && changed[i].id == tgt :: !HalfMerged(st, changed, runs, index, at, i)
    {
      TargetLostIff(st, changed, runs, index, at, e);
    }
  }

  /** Whatever calls of a merge pass fail, it counts the merges it recorded; these form a cycle exactly when one of
      them went into a memory that already led back to its source; and every memory it merged away leads to a live
      one exactly when none did and none went into a memory whose own attempt could neither be recorded nor undone. */
  lemma PassSurvivesIff(st: Store, changed: seq<MemoryItem>, runs: seq<SourceRun>, all: seq<MemoryItem>, at: nat)
    requires |changed| == |runs| && DistinctIds(changed) && forall i | 0 <= i < |changed| :: changed[i].id in st.rows
    requires ListedFrom(st.rows, all) && forall m | m in all :: !m.tombstone
    ensures var st' := MergePass(st, changed, runs, IndexByRef(all), at, |changed|).store;
            var edges := Edges(st, st');
            && (Acyclic(edges) <==> NoWayBack(edges))
            && (AllSurvive(edges, st'.rows)
                <==> NoWayBack(edges) && NoHalfMergedTarget(st, changed, runs, IndexByRef(all), at))
            && |edges| == MergePass(st, changed, runs, IndexByRef(all), at, |changed|).merged
  {
    FindsListed(all);
    PassCounts(st, changed, runs, IndexByRef(all), at, |changed|);
    PassKeepsShape(st, changed, runs, IndexByRef(all), at, |changed|);
    var st' := MergePass(st, changed, runs, IndexByRef(all), at, |changed|).store;
    AcyclicIff(Edges(st, st'));
    AllSurviveIff(Edges(st, st'), st'.rows);
    NoLostTargetIff(st, changed, runs, IndexByRef(all), at);
  }

  /** A merge that could not be recorded gets its row back; vectors may be lost or left behind. */
  predicate RowUndone(run: SourceRun) {
    run.hits.Some? ==> forall h | h in run.hits.value :: h.backend.recordOk || h.backend.untombstoneOk
  }

  /** If failed records are undone in the rows, a pass is acyclic and keeps a survivor for every memory it
      merged away exactly when no merge went into a target that already led back to its source, however many
      vectors could not be deleted or put back. */
  lemma UndonePassSurvivesIff(st: Store, changed: seq<MemoryItem>, runs: seq<SourceRun>, all: seq<MemoryItem>,
                              at: nat)
    requires |changed| == |runs| && DistinctIds(changed) && forall i | 0 <= i < |changed| :: changed[i].id in st.rows
    requires ListedFrom(st.rows, all) && forall m | m in all :: !m.tombstone
    requires forall i | 0 <= i < |runs| :: RowUndone(runs[i])
    ensures var st' := MergePass(st, changed, runs, IndexByRef(all), at, |changed|).store;
            var edges := Edges(st, st');
            && (Acyclic(edges) <==> NoWayBack(edges))
            && (AllSurvive(edges, st'.rows) <==> NoWayBack(edges))
  {
    PassSurvivesIff(st, changed, runs, all, at);
    forall i: nat | i < |changed| ensures !HalfMerged(st, changed, runs, IndexByRef(all), at, i) {
      AttemptIsAll(MergePass(st, changed, runs, IndexByRef(all), at, i), changed[i], runs[i], IndexByRef(all), at);
      assert RowUndone(runs[i]);
    }
  }
}
