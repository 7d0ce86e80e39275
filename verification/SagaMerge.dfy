/** What a merge pass keeps: its edges form no cycle, every merged memory leads to a surviving one, and the
    counts agree. */
module SagaMerge {
  import opened Basics
  import opened Items
  import opened Saga
  import opened TextFormat

  // ---------------------------------------------------------------- the state a pass relies on

  ghost predicate RefsInjective(rows: Rows) {
    forall a, b | a in rows && b in rows && Ref(rows[a]).Some? && Ref(rows[a]) == Ref(rows[b]) :: a == b
  }

  /** No tombstoned row still has its vector. */
  ghost predicate VectorsLive(st: Store) {
    forall id | id in st.rows && Ref(st.rows[id]).Some? && Ref(st.rows[id]).value in st.vectors ::
      !st.rows[id].tombstone
  }

  ghost predicate Good(st: Store) {
    (forall id | id in st.rows :: st.rows[id].id == id) && RefsInjective(st.rows) && VectorsLive(st)
  }

  /** A changed memory was read from a row that still exists; references are never rewritten. */
  predicate ReadFrom(rows: Rows, m: MemoryItem) {
    m.id in rows && m.vectorRef == rows[m.id].vectorRef
  }

  ghost predicate IndexOf(rows: Rows, index: map<nat, MemoryItem>) {
    forall v | v in index :: index[v].id in rows && index[v] == rows[index[v].id] && Ref(index[v]) == Some(v)
  }

  /** What a listing answers: rows as they are. */
  ghost predicate ListedFrom(rows: Rows, all: seq<MemoryItem>) {
    forall m | m in all :: m.id in rows && rows[m.id] == m
  }

  /** The lookup built from a listing finds current rows, and finds every listed row by its own reference. */
  lemma {:induction false} IndexOfListing(rows: Rows, all: seq<MemoryItem>)
    requires RefsInjective(rows) && ListedFrom(rows, all)
    ensures IndexOf(rows, IndexByRef(all))
    ensures forall m | m in all && Ref(m).Some? :: Ref(m).value in IndexByRef(all) && IndexByRef(all)[Ref(m).value] == m
  {
    if all != [] {
      var last := all[|all| - 1];
      IndexOfListing(rows, all[..|all| - 1]);
      assert last in all;
      forall m | m in all && Ref(m).Some?
        ensures Ref(m).value in IndexByRef(all) && IndexByRef(all)[Ref(m).value] == m
      {
        if m != last {
          assert m in all[..|all| - 1] && m.id != last.id;
        }
      }
    }
  }

  /** The last listed row with a reference. */
  function LastWith(all: seq<MemoryItem>, v: nat): (i: Option<nat>)
    ensures i.Some? ==> i.value < |all| && ParseU64(all[i.value].vectorRef) == Some(v)
    ensures forall j | (if i.Some? then i.value + 1 else 0) <= j < |all| :: ParseU64(all[j].vectorRef) != Some(v)
  {
    if all == [] then None
    else if ParseU64(all[|all| - 1].vectorRef) == Some(v) then Some(|all| - 1)
    else LastWith(all[..|all| - 1], v)
  }

  /** Where several listed rows have one reference, the last of them is found. */
  lemma {:induction false} IndexFindsTheLast(all: seq<MemoryItem>, v: nat)
    ensures var i := LastWith(all, v);
            if i.Some? then v in IndexByRef(all) && IndexByRef(all)[v] == all[i.value] else v !in IndexByRef(all)
  {
    if all != [] {
      IndexFindsTheLast(all[..|all| - 1], v);
    }
  }

  /** The calls that the pass does not check succeed: the vector goes, and a failed record is undone. */
  predicate Sound(b: Backend) {
    b.deleteOk && (b.recordOk || (b.untombstoneOk && b.reinsertOk))
  }

  predicate SoundRun(run: SourceRun) {
    run.hits.Some? ==> forall h | h in run.hits.value :: Sound(h.backend)
  }

  // ---------------------------------------------------------------- one source

  lemma {:induction false} PresentIn(hits: seq<Hit>, vectors: Vectors)
    ensures forall h | h in Present(hits, vectors) :: h in hits && h.vecId in vectors
  {
    if hits != [] {
      PresentIn(hits[1..], vectors);
    }
  }

  /** The hit that a source is merged into, or half merged into. */
  function Chosen(src: MemoryItem, vr: nat, hits: seq<Hit>, index: map<nat, MemoryItem>): (h: Option<Hit>)
    ensures h.Some? ==> h.value in hits && Eligible(src, vr, h.value, index)
  {
    if hits == [] then None
    else if Eligible(src, vr, hits[0], index) && hits[0].backend.tombstoneOk then Some(hits[0])
    else Chosen(src, vr, hits[1..], index)
  }

  /** Going through the hits changes nothing, or is one merge attempt into the chosen one. */
  lemma {:induction false} TryHitsOutcome(st: Store, src: MemoryItem, vr: nat, vec: Vector, hits: seq<Hit>,
                                          index: map<nat, MemoryItem>, at: nat)
    ensures var (st', merged, _) := TryHits(st, src, vr, vec, hits, index, at);
            var h := Chosen(src, vr, hits, index);
            if h.None? then st' == st && !merged
            else (st', merged) == MergeInto(st, src.id, vr, vec, index[h.value.vecId].id, h.value.backend, at)
    decreases |hits|
  {
    if hits != [] && !(Eligible(src, vr, hits[0], index) && hits[0].backend.tombstoneOk) {
      TryHitsOutcome(st, src, vr, vec, hits[1..], index, at);
    }
  }

  /** The attempt that a source makes in a pass, if it makes one. */
  function AttemptOf(p: Pass, src: MemoryItem, run: SourceRun, index: map<nat, MemoryItem>): Option<Hit> {
    if p.aborted || !IsSource(src, run, p.store.vectors) || run.hits.None? then None
    else Chosen(src, Ref(src).value, Present(run.hits.value, p.store.vectors), index)
  }

  /** A source leaves the stores alone or makes its attempt. */
  lemma AttemptIsAll(p: Pass, src: MemoryItem, run: SourceRun, index: map<nat, MemoryItem>, at: nat)
    ensures var p' := MergeSource(p, src, run, index, at);
            var h := AttemptOf(p, src, run, index);
            if h.None? then p'.store == p.store && p'.merged == p.merged
            else
              && run.hits.Some? && h.value in run.hits.value && Ref(src).Some? && Ref(src).value in p.store.vectors
              && Eligible(src, Ref(src).value, h.value, index) && h.value.vecId in p.store.vectors
              && var (st', merged) := MergeInto(p.store, src.id, Ref(src).value, p.store.vectors[Ref(src).value],
                                                index[h.value.vecId].id, h.value.backend, at);
                 p'.store == st' && p'.merged == p.merged + (if merged then 1 else 0)
  {
    if !p.aborted && IsSource(src, run, p.store.vectors) && run.hits.Some? {
      var vr := Ref(src).value;
      PresentIn(run.hits.value, p.store.vectors);
      TryHitsOutcome(p.store, src, vr, p.store.vectors[vr], Present(run.hits.value, p.store.vectors), index, at);
    }
  }

  /** A recorded merge tombstones its source, takes the source's vector away if it can be deleted, and adds one row to
      the merge log and, if it can, one entry to the log. */
  lemma RecordedMergeDoes(st: Store, src: string, vr: nat, vec: Vector, tgt: string, b: Backend, at: nat)
    requires b.recordOk
    ensures var (st', merged) := MergeInto(st, src, vr, vec, tgt, b, at);
            var text := src + [TAB] + (tgt + [TAB] + ("ann-sim+shared-entity" + [TAB] + Decimal(at)));
            var entry := WopEntry(st.lastSeq + 1, "merge", Text(text), at);
            && merged
            && st'.rows == (if src in st.rows then st.rows[src := st.rows[src].(tombstone := true)] else st.rows)
            && st'.vectors == st.vectors - (if b.deleteOk then {vr} else {})
            && st'.merges == st.merges + [MergeRow(st.nextMergeId, MergeFact(src, tgt, "ann-sim+shared-entity", at))]
            && st'.wops == st.wops + (if b.appendOk then [entry] else [])
  {
    JoinFirst(MERGE_REASON, [Decimal(at)], TAB);
    JoinFirst(tgt, [MERGE_REASON] + [Decimal(at)], TAB);
    JoinFirst(src, [tgt] + ([MERGE_REASON] + [Decimal(at)]), TAB);
    assert [src] + ([tgt] + ([MERGE_REASON] + [Decimal(at)])) == [src, tgt, MERGE_REASON, Decimal(at)];
    assert st.vectors - {} == st.vectors && st.wops + [] == st.wops;
  }

  /** One that cannot be recorded is neither counted nor logged, and leaves the source's row live exactly when that
      could be undone. Its vector is put back if it can be. */
  lemma UnrecordedMergeDoes(st: Store, src: string, vr: nat, vec: Vector, tgt: string, b: Backend, at: nat)
    requires !b.recordOk
    ensures var (st', merged) := MergeInto(st, src, vr, vec, tgt, b, at);
            && !merged && st'.merges == st.merges && st'.wops == st.wops
            && st'.rows == (if src in st.rows then st.rows[src := st.rows[src].(tombstone := !b.untombstoneOk)]
                            else st.rows)
            && (!b.reinsertOk ==> st'.vectors == st.vectors - (if b.deleteOk then {vr} else {}))
            && (b.reinsertOk ==> st'.vectors == if b.deleteOk || vr !in st.vectors then st.vectors[vr := vec]
                                                else st.vectors)
  {
    assert st.vectors - {} == st.vectors;
  }

  /** A half merge is undone completely exactly when the row is untombstoned and the vector is either put
      back or was never deleted. */
  lemma UndoneIff(st: Store, src: string, vr: nat, tgt: string, b: Backend, at: nat)
    requires src in st.rows && !st.rows[src].tombstone && vr in st.vectors && !b.recordOk
    ensures var (st', merged) := MergeInto(st, src, vr, st.vectors[vr], tgt, b, at);
            !merged && (st' == st <==> b.untombstoneOk && (b.reinsertOk || !b.deleteOk))
  {
    var (st', _) := MergeInto(st, src, vr, st.vectors[vr], tgt, b, at);
    assert st.rows[src := st.rows[src].(tombstone := true)][src := st.rows[src].(tombstone := false)] == st.rows;
    assert (st.vectors - {vr})[vr := st.vectors[vr]] == st.vectors;
    if !b.untombstoneOk {
      assert st'.rows[src].tombstone;
    }
  }

  /** A recorded merge keeps "no tombstoned row has its vector" exactly when the vector could be deleted. */
  lemma MergeKeepsVectorsLiveIff(st: Store, src: string, vr: nat, tgt: string, b: Backend, at: nat)
    requires Good(st) && src in st.rows && Ref(st.rows[src]) == Some(vr) && vr in st.vectors && b.recordOk
    ensures VectorsLive(MergeInto(st, src, vr, st.vectors[vr], tgt, b, at).0) <==> b.deleteOk
  {
    var st' := MergeInto(st, src, vr, st.vectors[vr], tgt, b, at).0;
    assert Ref(st'.rows[src]) == Some(vr);
  }

  // ---------------------------------------------------------------- the pass

  /** What the pass has recorded since `st0`. */
  function Edges(st0: Store, st: Store): seq<MergeRow> {
    if |st0.merges| <= |st.merges| then st.merges[|st0.merges|..] else []
  }

  /** Each memory is merged away once, and never into one that was merged away before. */
  ghost predicate Chronological(edges: seq<MergeRow>) {
    && (forall i, j | 0 <= i < j < |edges| :: edges[i].fact.sourceId != edges[j].fact.sourceId)
    && (forall i, j | 0 <= i <= j < |edges| :: edges[i].fact.sourceId != edges[j].fact.targetId)
  }

  predicate JustDied(st0: Store, st: Store, id: string) {
    id in st0.rows && id in st.rows && !st0.rows[id].tombstone && st.rows[id].tombstone
  }

  /** Rows only change by being tombstoned. */
  ghost predicate OnlyTombstones(st0: Store, st: Store) {
    && st.rows.Keys == st0.rows.Keys
    && (forall id | id in st.rows :: st.rows[id] == st0.rows[id].(tombstone := st.rows[id].tombstone)
                                     && (st0.rows[id].tombstone ==> st.rows[id].tombstone))
  }

  /** The edges are exactly the deaths: sources died in this pass, and targets were live before it. */
  ghost predicate EdgesAreDeaths(st0: Store, st: Store, edges: seq<MergeRow>) {
    && (forall e | e in edges ::
          && JustDied(st0, st, e.fact.sourceId)
          && e.fact.targetId in st0.rows && !st0.rows[e.fact.targetId].tombstone)
    && (forall id | JustDied(st0, st, id) :: exists e :: e in edges && e.fact.sourceId == id)
  }

  ghost predicate PassInv(st0: Store, p: Pass) {
    var edges := Edges(st0, p.store);
    && Good(p.store)
    && OnlyTombstones(st0, p.store)
    && p.store.vectors.Keys <= st0.vectors.Keys
    && p.store.merges == st0.merges + edges && |edges| == p.merged
    && Chronological(edges)
    && EdgesAreDeaths(st0, p.store, edges)
  }

  lemma MergeIntoGood(st: Store, src: string, vr: nat, tgt: string, b: Backend, at: nat)
    requires Good(st) && b.deleteOk && b.recordOk
    requires src in st.rows && Ref(st.rows[src]) == Some(vr) && vr in st.vectors
    ensures Good(MergeInto(st, src, vr, st.vectors[vr], tgt, b, at).0)
  {
  }

  lemma ChronologicalSnoc(edges: seq<MergeRow>, row: MergeRow)
    requires Chronological(edges) && row.fact.sourceId != row.fact.targetId
    requires forall e | e in edges :: e.fact.sourceId != row.fact.sourceId && e.fact.sourceId != row.fact.targetId
    ensures Chronological(edges + [row])
  {
    var all := edges + [row];
    forall i | 0 <= i < |edges| ensures all[i] == edges[i] && edges[i] in edges {
    }
  }

  lemma OneMoreDeath(st0: Store, st: Store, st': Store, src: string)
    requires OnlyTombstones(st0, st) && src in st.rows && !st.rows[src].tombstone
    requires st'.rows == WithTombstone(st.rows, src, true)
    ensures OnlyTombstones(st0, st')
    ensures forall id :: JustDied(st0, st', id) <==> JustDied(st0, st, id) || id == src
  {
  }

  lemma EdgesAreDeathsSnoc(st0: Store, st: Store, st': Store, edges: seq<MergeRow>, row: MergeRow)
    requires EdgesAreDeaths(st0, st, edges) && JustDied(st0, st', row.fact.sourceId)
    requires forall id :: JustDied(st0, st', id) <==> JustDied(st0, st, id) || id == row.fact.sourceId
    requires row.fact.targetId in st0.rows && !st0.rows[row.fact.targetId].tombstone
    ensures EdgesAreDeaths(st0, st', edges + [row])
  {
    forall id | JustDied(st0, st', id) ensures exists e :: e in edges + [row] && e.fact.sourceId == id {
      if id == row.fact.sourceId {
        assert row in edges + [row];
      } else {
        assert JustDied(st0, st, id);
        var e :| e in edges && e.fact.sourceId == id;
        assert e in edges + [row];
      }
    }
  }

  lemma EdgesSnoc(st0: Store, st: Store, st': Store, row: MergeRow)
    requires st.merges == st0.merges + Edges(st0, st) && st'.merges == st.merges + [row]
    ensures Edges(st0, st') == Edges(st0, st) + [row]
    ensures st'.merges == st0.merges + Edges(st0, st')
  {
  }

  lemma MergeIntoKeeps(st0: Store, p: Pass, src: string, vr: nat, tgt: string, b: Backend, at: nat)
    requires PassInv(st0, p) && b.deleteOk && b.recordOk
    requires src in p.store.rows && Ref(p.store.rows[src]) == Some(vr) && vr in p.store.vectors
    requires tgt in p.store.rows && !p.store.rows[tgt].tombstone && tgt != src
    ensures PassInv(st0, p.(store := MergeInto(p.store, src, vr, p.store.vectors[vr], tgt, b, at).0,
                            merged := p.merged + 1))
  {
    var st := p.store;
    var st' := MergeInto(st, src, vr, st.vectors[vr], tgt, b, at).0;
    var edges := Edges(st0, st);
    var row := MergeRow(st.nextMergeId, MergeFact(src, tgt, MERGE_REASON, at));
    EdgesSnoc(st0, st, st', row);
    MergeIntoGood(st, src, vr, tgt, b, at);
    OneMoreDeath(st0, st, st', src);
    forall e | e in edges ensures e.fact.sourceId != src && e.fact.sourceId != tgt {
      assert JustDied(st0, st, e.fact.sourceId);
    }
    ChronologicalSnoc(edges, row);
    EdgesAreDeathsSnoc(st0, st, st', edges, row);
  }

  lemma MergeSourceKeeps(st0: Store, p: Pass, src: MemoryItem, run: SourceRun, index: map<nat, MemoryItem>, at: nat)
    requires PassInv(st0, p) && SoundRun(run) && IndexOf(st0.rows, index) && ReadFrom(st0.rows, src)
    ensures PassInv(st0, MergeSource(p, src, run, index, at))
  {
    AttemptIsAll(p, src, run, index, at);
    var h := AttemptOf(p, src, run, index);
    if h.Some? {
      var st, vr, b := p.store, Ref(src).value, h.value.backend;
      var tgt := index[h.value.vecId].id;
      assert Sound(b);
      assert Ref(st.rows[tgt]) == Some(h.value.vecId);
      if b.recordOk {
        MergeIntoKeeps(st0, p, src.id, vr, tgt, b, at);
      } else {
        UndoneIff(st, src.id, vr, tgt, b, at);
      }
    }
  }

  lemma PassStarts(st: Store)
    requires Good(st)
    ensures PassInv(st, Pass(st, 0, [], false))
  {
    assert Edges(st, st) == [];
    forall id | id in st.rows ensures st.rows[id] == st.rows[id].(tombstone := st.rows[id].tombstone) {
    }
  }

  /** What a pass with succeeding deletions starts from. */
  ghost predicate PassReady(st: Store, changed: seq<MemoryItem>, runs: seq<SourceRun>, index: map<nat, MemoryItem>) {
    && |changed| == |runs| && Good(st) && IndexOf(st.rows, index)
    && forall i | 0 <= i < |changed| :: ReadFrom(st.rows, changed[i]) && SoundRun(runs[i])
  }

  lemma PassGoesOn(st: Store, changed: seq<MemoryItem>, runs: seq<SourceRun>, index: map<nat, MemoryItem>, at: nat,
                   n: nat, p: Pass)
    requires PassReady(st, changed, runs, index) && n < |changed| && PassInv(st, p)
    ensures PassInv(st, MergeSource(p, changed[n], runs[n], index, at))
  {
    MergeSourceKeeps(st, p, changed[n], runs[n], index, at);
  }

  lemma {:induction false} MergePassKeeps(st: Store, changed: seq<MemoryItem>, runs: seq<SourceRun>,
                                          index: map<nat, MemoryItem>, at: nat, n: nat)
    requires PassReady(st, changed, runs, index) && n <= |changed|
    ensures PassInv(st, MergePass(st, changed, runs, index, at, n))
    decreases n
  {
    if n == 0 {
      PassStarts(st);
    } else {
      MergePassKeeps(st, changed, runs, index, at, n - 1);
      PassGoesOn(st, changed, runs, index, at, n - 1, MergePass(st, changed, runs, index, at, n - 1));
    }
  }

  // ---------------------------------------------------------------- survivors and cycles

  predicate Step(edges: seq<MergeRow>, a: string, b: string) {
    exists e :: e in edges && e.fact.sourceId == a && e.fact.targetId == b
  }

  /** A way along recorded merges. */
  predicate IsWay(edges: seq<MergeRow>, way: seq<string>) {
    way != [] && forall i | 0 <= i < |way| - 1 :: Step(edges, way[i], way[i + 1])
  }

  /** When a memory was merged away; later than everything if it was not. */
  function Rank(edges: seq<MergeRow>, id: string): (r: nat)
    ensures r <= |edges|
    ensures r < |edges| ==> edges[r].fact.sourceId == id
    ensures r == |edges| ==> forall e | e in edges :: e.fact.sourceId != id
  {
    if edges == [] then 0
    else if edges[0].fact.sourceId == id then 0
    else 1 + Rank(edges[1..], id)
  }

  lemma RankRises(edges: seq<MergeRow>, a: string, b: string)
    requires Chronological(edges) && Step(edges, a, b)
    ensures Rank(edges, a) < Rank(edges, b)
  {
  }

  lemma {:induction false} RankRisesAlong(edges: seq<MergeRow>, way: seq<string>, j: nat)
    requires Chronological(edges) && IsWay(edges, way) && 0 < j < |way|
    ensures Rank(edges, way[0]) < Rank(edges, way[j])
  {
    RankRises(edges, way[j - 1], way[j]);
    if j > 1 {
      RankRisesAlong(edges, way, j - 1);
    }
  }

  /** Following the merges from `id` ends at a memory that was not merged away. */
  lemma {:induction false} WayOut(edges: seq<MergeRow>, id: string) returns (way: seq<string>)
    requires Chronological(edges)
    ensures IsWay(edges, way) && way[0] == id
    ensures forall e | e in edges :: e.fact.sourceId != way[|way| - 1]
    ensures |way| > 1 ==> exists e :: e in edges && e.fact.targetId == way[|way| - 1]
    decreases |edges| - Rank(edges, id)
  {
    var r := Rank(edges, id);
    if r == |edges| {
      way := [id];
    } else {
      var next := edges[r].fact.targetId;
      assert edges[r] in edges;
      RankRises(edges, id, next);
      var rest := WayOut(edges, next);
      way := [id] + rest;
      if |rest| == 1 {
        assert way[|way| - 1] == next;
      }
    }
  }

  ghost function Deaths(st0: Store, st: Store): set<string> {
    set id | id in st0.rows && JustDied(st0, st, id)
  }

  lemma {:induction false} DistinctSources(edges: seq<MergeRow>)
    requires Chronological(edges)
    ensures |Sources(edges)| == |edges|
  {
    if edges == [] {
      assert Sources(edges) == {};
    } else {
      var last := edges[|edges| - 1];
      var before := edges[..|edges| - 1];
      DistinctSources(before);
      assert Sources(edges) == Sources(before) + {last.fact.sourceId};
      assert last.fact.sourceId !in Sources(before);
    }
  }

  /** Every merged memory leads along the recorded merges to a live one. */
  ghost predicate Survives(edges: seq<MergeRow>, rows: Rows, id: string) {
    exists way :: && IsWay(edges, way) && way[0] == id
                  && way[|way| - 1] in rows && !rows[way[|way| - 1]].tombstone
  }

  lemma SourceSurvives(st: Store, p: Pass, e: MergeRow)
    requires PassInv(st, p) && e in Edges(st, p.store)
    ensures Survives(Edges(st, p.store), p.store.rows, e.fact.sourceId)
  {
    var edges := Edges(st, p.store);
    var way := WayOut(edges, e.fact.sourceId);
    var last := way[|way| - 1];
    assert last != e.fact.sourceId;
    var into :| into in edges && into.fact.targetId == last;
    assert !JustDied(st, p.store, last);
  }

  lemma DeathsAreSources(st: Store, p: Pass)
    requires PassInv(st, p)
    ensures |Deaths(st, p.store)| == p.merged
  {
    var edges := Edges(st, p.store);
    forall id ensures id in Deaths(st, p.store) <==> id in Sources(edges) {
      assert id in Sources(edges) <==> exists e :: e in edges && e.fact.sourceId == id;
    }
    assert Deaths(st, p.store) == Sources(edges);
    DistinctSources(edges);
  }

  /** A whole pass. The edges it records run in no cycle; every memory it merged away leads along them to one
      that is still live; and its count equals the rows added to the merge log and the rows newly
      tombstoned, whatever attempts failed and were undone on the way. */
  lemma MergePassKeepsASurvivor(st: Store, changed: seq<MemoryItem>, runs: seq<SourceRun>, all: seq<MemoryItem>,
                                at: nat)
    requires |changed| == |runs|
    requires Good(st) && ListedFrom(st.rows, all) && forall m | m in changed :: ReadFrom(st.rows, m)
    requires forall run | run in runs :: SoundRun(run)
    ensures var p := MergePass(st, changed, runs, IndexByRef(all), at, |changed|);
            var edges := Edges(st, p.store);
            && Good(p.store) && OnlyTombstones(st, p.store)
            && p.store.merges == st.merges + edges
            && p.merged == |edges| == |Deaths(st, p.store)|
            && (forall way | IsWay(edges, way) && |way| > 1 :: way[0] != way[|way| - 1])
            && (forall e | e in edges :: Survives(edges, p.store.rows, e.fact.sourceId))
  {
    var index := IndexByRef(all);
    IndexOfListing(st.rows, all);
    MergePassKeeps(st, changed, runs, index, at, |changed|);
    var p := MergePass(st, changed, runs, index, at, |changed|);
    var edges := Edges(st, p.store);
    DeathsAreSources(st, p);
    forall way | IsWay(edges, way) && |way| > 1 ensures way[0] != way[|way| - 1] {
      RankRisesAlong(edges, way, |way| - 1);
    }
    forall e | e in edges ensures Survives(edges, p.store.rows, e.fact.sourceId) {
      SourceSurvives(st, p, e);
    }
  }

  // ---------------------------------------------------------------- when the vector cannot be deleted

  function Twin(id: string, vecId: nat): MemoryItem {
    MemoryItem(id, "ix", "s", "", "", "", Semantic, Long, "c", ["e"], Decimal(vecId), 0, 0, 0, false, false)
  }

  const STUCK := Backend(true, false, true, true, true, true)

  function Twins(a: MemoryItem, b: MemoryItem): Store {
    Store(map[a.id := a, b.id := b], map[1 := [], 2 := []], [], 0, [], 0)
  }

  /** Two live memories that find each other. */
  predicate AreTwins(a: MemoryItem, b: MemoryItem) {
    && a.id != b.id && !a.tombstone && !b.tombstone && a.memoryType == b.memoryType == Semantic
    && Ref(a) == Some(1) && Ref(b) == Some(2) && SharesEntity(a, b) && SharesEntity(b, a)
  }

  lemma TwinsExist() returns (a: MemoryItem, b: MemoryItem)
    ensures AreTwins(a, b) && PendingEmpty(a) && PendingEmpty(b)
  {
    a, b := Twin("A", 1), Twin("B", 2);
    DecimalRoundTrip(1);
    DecimalRoundTrip(2);
    assert "e" in a.entities && "e" in b.entities;
  }

  lemma TwinsPass(a: MemoryItem, b: MemoryItem, runs: seq<SourceRun>)
    requires AreTwins(a, b)
    requires runs == [SourceRun(true, Some([Hit(2, 1.0, STUCK)])), SourceRun(true, Some([Hit(1, 1.0, STUCK)]))]
    ensures var p := MergePass(Twins(a, b), [a, b], runs, map[1 := a, 2 := b], 0, 2);
            && p.merged == 2 && p.troubles == [] && !p.aborted
            && p.store.rows == map[a.id := a.(tombstone := true), b.id := b.(tombstone := true)]
  {
  }

  lemma TwinsIndex(a: MemoryItem, b: MemoryItem)
    requires AreTwins(a, b)
    ensures IndexByRef([a, b]) == map[1 := a, 2 := b]
  {
    assert [a, b][..1] == [a] && [a][..0] == [];
    assert IndexByRef([a]) == map[1 := a];
  }

  lemma TwinsGood(a: MemoryItem, b: MemoryItem)
    requires AreTwins(a, b)
    ensures Good(Twins(a, b)) && ListedFrom(Twins(a, b).rows, [a, b])
    ensures forall m | m in [a, b] :: ReadFrom(Twins(a, b).rows, m)
  {
  }

  /** The pass ignores a failed vector deletion, and then two memories can be merged into each other: both
      end tombstoned and nothing survives. */
  lemma FailedDeleteLosesBoth() returns (st: Store, changed: seq<MemoryItem>, runs: seq<SourceRun>)
    ensures |changed| == |runs| && Good(st)
    ensures ListedFrom(st.rows, changed) && forall m | m in changed :: ReadFrom(st.rows, m)
    ensures forall id | id in st.rows :: !st.rows[id].tombstone
    ensures var p := MergePass(st, changed, runs, IndexByRef(changed), 0, |changed|);
            && p.merged == 2 && p.troubles == [] && !p.aborted
            && p.store.rows.Keys == st.rows.Keys != {} && forall id | id in p.store.rows :: p.store.rows[id].tombstone
  {
    var a, b := TwinsExist();
    st := Twins(a, b);
    changed := [a, b];
    runs := [SourceRun(true, Some([Hit(2, 1.0, STUCK)])), SourceRun(true, Some([Hit(1, 1.0, STUCK)]))];
    TwinsGood(a, b);
    TwinsIndex(a, b);
    TwinsPass(a, b, runs);
    assert a.id in st.rows;
  }
}
