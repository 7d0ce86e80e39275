/**
 A whole consolidation: recycle and promote, then merge, then late extraction, which writes memories back as they
 were read at the start. What of the first two phases is left at the end, with any calls failing.
 */
module SagaWhole {
  import opened Basics
  import opened TextFormat
  import opened Items
  import opened Saga
  import opened SagaMerge
  import opened SagaSurvival
  import opened SagaConvergence
  import SagaPhases
  import Convergence

  /** The memories it reads, what it decides about them, how its calls turn out, and the rows it lists for the merge
      phase. */
  datatype Consolidation = Consolidation(changed: seq<MemoryItem>, verdicts: seq<Verdict>, calls: seq<UpkeepCalls>,
                                         all: seq<MemoryItem>, runs: seq<SourceRun>, extracts: seq<ExtractRun>,
                                         now: nat)
  {
    predicate Fits() {
      |changed| == |verdicts| == |calls| == |runs| == |extracts|
    }

    function Tended(st: Store): Store
      requires Fits()
    {
      UpkeepPass(st, changed, verdicts, calls, now, |changed|).store
    }

    function Merging(st: Store): Pass
      requires Fits()
    {
      MergePass(Tended(st), changed, runs, IndexByRef(all), now, |changed|)
    }

    function Merged(st: Store): Store
      requires Fits()
    {
      Merging(st).store
    }

    function Extracted(st: Store): Store
      requires Fits()
    {
      ReextractPass(Merged(st), changed, extracts, now, |changed|).store
    }

    /** What it merged away, and into what. */
    function Recorded(st: Store): seq<MergeRow>
      requires Fits()
    {
      Edges(Tended(st), Merged(st))
    }

    /** The attempt to merge memory number `i`, if there is one. */
    function Attempt(st: Store, i: nat): Option<Hit>
      requires Fits() && i < |changed|
    {
      AttemptAt(Tended(st), changed, runs, IndexByRef(all), now, i)
    }

    /** The memories are live rows as they are; those that wait for their entities have none. The listing is made
        after the first phase. */
    ghost predicate From(st: Store) {
      && Fits() && Snapshot(changed)
      && (forall i | 0 <= i < |changed| :: changed[i].id in st.rows && st.rows[changed[i].id] == changed[i])
      && (forall i | 0 <= i < |changed| :: PendingEmpty(changed[i]))
      && ListedFrom(Tended(st).rows, all) && forall m | m in all :: !m.tombstone
    }
  }

  predicate Recycled(c: Consolidation, i: nat)
    requires c.Fits() && i < |c.changed|
  {
    c.verdicts[i] == Recycle && c.calls[i].tombstoneOk
  }

  predicate Promoted(c: Consolidation, i: nat)
    requires c.Fits() && i < |c.changed|
  {
    c.verdicts[i] == Promote && c.changed[i].tier == Short && c.calls[i].putOk
  }

  predicate Rewritten(c: Consolidation, i: nat)
    requires c.Fits() && i < |c.changed|
  {
    Rewrites(c.changed[i], c.extracts[i])
  }

  // ---------------------------------------------------------------- one memory through the phases

  /** A memory's row after the first phase. */
  function TendedRow(m: MemoryItem, verdict: Verdict, calls: UpkeepCalls): MemoryItem {
    if verdict == Recycle && calls.tombstoneOk then m.(tombstone := true)
    else if verdict == Promote && m.tier == Short && calls.putOk then m.(tier := Long)
    else m
  }

  lemma TendOne(u: Upkeep, m: MemoryItem, verdict: Verdict, calls: UpkeepCalls, now: nat)
    ensures var rows' := UpkeepOne(u, m, verdict, calls, now).store.rows;
            && (forall id | id in u.store.rows && id != m.id :: id in rows' && rows'[id] == u.store.rows[id])
            && (m.id in u.store.rows && u.store.rows[m.id] == m ==>
                  m.id in rows' && rows'[m.id] == TendedRow(m, verdict, calls))
  {
  }

  lemma {:induction false} UpkeepRow(st: Store, changed: seq<MemoryItem>, verdicts: seq<Verdict>,
                                     calls: seq<UpkeepCalls>, now: nat, n: nat, i: nat)
    requires n <= |changed| == |verdicts| == |calls| && i < |changed| && DistinctIds(changed)
    requires changed[i].id in st.rows && st.rows[changed[i].id] == changed[i]
    ensures var rows' := UpkeepPass(st, changed, verdicts, calls, now, n).store.rows;
            && changed[i].id in rows'
            && rows'[changed[i].id] == if i < n then TendedRow(changed[i], verdicts[i], calls[i]) else changed[i]
    decreases n
  {
    if n > 0 {
      UpkeepRow(st, changed, verdicts, calls, now, n - 1, i);
      TendOne(UpkeepPass(st, changed, verdicts, calls, now, n - 1), changed[n - 1], verdicts[n - 1], calls[n - 1], now);
    }
  }

  lemma TendedRows(st: Store, c: Consolidation, i: nat)
    requires c.From(st) && i < |c.changed|
    ensures c.changed[i].id in c.Tended(st).rows
    ensures c.Tended(st).rows[c.changed[i].id] == TendedRow(c.changed[i], c.verdicts[i], c.calls[i])
  {
    UpkeepRow(st, c.changed, c.verdicts, c.calls, c.now, |c.changed|, i);
  }

  lemma AllTended(st: Store, c: Consolidation)
    requires c.From(st)
    ensures forall i | 0 <= i < |c.changed| :: c.changed[i].id in c.Tended(st).rows
    ensures FindsLive(c.Tended(st).rows, IndexByRef(c.all))
  {
    forall i | 0 <= i < |c.changed| ensures c.changed[i].id in c.Tended(st).rows {
      TendedRows(st, c, i);
    }
    FindsListed(c.all);
  }

  /** Only a memory with entities is tried to be merged, so none that waits for them. */
  lemma AttemptsHaveEntities(st: Store, c: Consolidation, i: nat)
    requires c.From(st) && i < |c.changed| && c.Attempt(st, i).Some?
    ensures !c.changed[i].entitiesPending
  {
    AttemptIsAll(MergePass(c.Tended(st), c.changed, c.runs, IndexByRef(c.all), c.now, i), c.changed[i], c.runs[i],
                 IndexByRef(c.all), c.now);
    assert PendingEmpty(c.changed[i]);
  }

  /** After late extraction a changed memory's row is its snapshot with new entities, or as it was. */
  lemma {:induction false} ReextractRow(st: Store, changed: seq<MemoryItem>, runs: seq<ExtractRun>, now: nat, n: nat,
                                        i: nat)
    requires i < |changed| == |runs| && n <= |changed| && DistinctIds(changed) && changed[i].id in st.rows
    ensures var st' := ReextractPass(st, changed, runs, now, n).store;
            && changed[i].id in st'.rows
            && st'.rows[changed[i].id]
               == (if i < n && Rewrites(changed[i], runs[i]) then WithEntities(changed[i], runs[i].entities.value)
                   else st.rows[changed[i].id])
    decreases n
  {
    if n > 0 {
      ReextractRow(st, changed, runs, now, n - 1, i);
    }
  }

  lemma {:induction false} ReextractLeavesRest(st: Store, changed: seq<MemoryItem>, runs: seq<ExtractRun>, now: nat,
                                               n: nat, id: string)
    requires n <= |changed| == |runs| && id in st.rows && forall i | 0 <= i < n :: changed[i].id != id
    ensures var st' := ReextractPass(st, changed, runs, now, n).store; id in st'.rows && st'.rows[id] == st.rows[id]
    decreases n
  {
    if n > 0 {
      ReextractLeavesRest(st, changed, runs, now, n - 1, id);
    }
  }

  lemma {:induction false} ReextractKeepsKeys(st: Store, changed: seq<MemoryItem>, runs: seq<ExtractRun>, now: nat,
                                              n: nat)
    requires n <= |changed| == |runs| && forall i | 0 <= i < |changed| :: changed[i].id in st.rows
    ensures var st' := ReextractPass(st, changed, runs, now, n).store;
            st'.vectors == st.vectors && st'.merges == st.merges && st'.rows.Keys == st.rows.Keys
    decreases n
  {
    if n > 0 {
      ReextractKeepsKeys(st, changed, runs, now, n - 1);
    }
  }

  /** A memory's row at the end: what late extraction wrote, or what the first phase made of it with the tombstone
      that its merge attempt left. */
  lemma FinalRow(st: Store, c: Consolidation, i: nat)
    requires c.From(st) && i < |c.changed|
    ensures var id := c.changed[i].id;
            var tended := TendedRow(c.changed[i], c.verdicts[i], c.calls[i]);
            && id in c.Merged(st).rows && id in c.Extracted(st).rows
            && c.Merged(st).rows[id] == tended.(tombstone := DeadAfter(tended.tombstone, c.Attempt(st, i)))
            && c.Extracted(st).rows[id]
               == if Rewritten(c, i) then WithEntities(c.changed[i], c.extracts[i].entities.value)
                  else c.Merged(st).rows[id]
  {
    AllTended(st, c);
    TendedRows(st, c, i);
    AttemptDecidesRow(c.Tended(st), c.changed, c.runs, IndexByRef(c.all), c.now, |c.changed|, i);
    ReextractRow(c.Merged(st), c.changed, c.extracts, c.now, |c.changed|, i);
  }

  // ---------------------------------------------------------------- what late extraction undoes

  /** Late extraction leaves all rows alone where a follower looks, that is in content, type, reference, tier and
      tombstone, exactly when every memory it rewrote was still as it was read. */
  lemma ReextractIsHarmlessIff(st: Store, changed: seq<MemoryItem>, runs: seq<ExtractRun>, now: nat)
    requires |changed| == |runs| && DistinctIds(changed)
    requires forall i | 0 <= i < |changed| :: changed[i].id in st.rows
    ensures Convergence.Converged(st.rows, ReextractPass(st, changed, runs, now, |changed|).store.rows)
            <==> forall i | 0 <= i < |changed| && Rewrites(changed[i], runs[i]) :: Untouched(st.rows, changed[i])
  {
    var st' := ReextractPass(st, changed, runs, now, |changed|).store;
    ReextractKeepsKeys(st, changed, runs, now, |changed|);
    forall i | 0 <= i < |changed|
      ensures Convergence.ShapeOf(st'.rows[changed[i].id]) == Convergence.ShapeOf(st.rows[changed[i].id])
              <==> (Rewrites(changed[i], runs[i]) ==> Untouched(st.rows, changed[i]))
    {
      ReextractRow(st, changed, runs, now, |changed|, i);
    }
    if forall i | 0 <= i < |changed| && Rewrites(changed[i], runs[i]) :: Untouched(st.rows, changed[i]) {
      forall id | id in st.rows ensures Convergence.ShapeOf(st.rows[id]) == Convergence.ShapeOf(st'.rows[id]) {
        if forall i | 0 <= i < |changed| :: changed[i].id != id {
          ReextractLeavesRest(st, changed, runs, now, |changed|, id);
        }
      }
    }
  }

  /** In a consolidation that is: exactly when it rewrites no memory that it recycled or promoted. */
  lemma LateExtractionIsHarmlessIff(st: Store, c: Consolidation)
    requires c.From(st)
    ensures Convergence.Converged(c.Merged(st).rows, c.Extracted(st).rows)
            <==> forall i: nat | i < |c.changed| && Rewritten(c, i) :: !Recycled(c, i) && !Promoted(c, i)
  {
    forall i: nat | i < |c.changed|
      ensures c.changed[i].id in c.Merged(st).rows
      ensures Rewritten(c, i) ==> (Untouched(c.Merged(st).rows, c.changed[i]) <==> !Recycled(c, i) && !Promoted(c, i))
    {
      FinalRow(st, c, i);
      if c.Attempt(st, i).Some? {
        AttemptsHaveEntities(st, c, i);
      }
    }
    ReextractIsHarmlessIff(c.Merged(st), c.changed, c.extracts, c.now);
  }

  /** A recycled memory is still tombstoned at the end exactly when late extraction did not rewrite it and no merge
      attempt on it was undone. */
  lemma RecycledStaysRecycledIff(st: Store, c: Consolidation, i: nat)
    requires c.From(st) && i < |c.changed| && Recycled(c, i)
    ensures c.changed[i].id in c.Extracted(st).rows
    ensures var h := c.Attempt(st, i);
            c.Extracted(st).rows[c.changed[i].id].tombstone
            <==> !Rewritten(c, i) && !(h.Some? && !h.value.backend.recordOk && h.value.backend.untombstoneOk)
  {
    FinalRow(st, c, i);
  }

  /** The memories that a consolidation merges away stay merged: late extraction rewrites none of them. */
  lemma MergedStayMerged(st: Store, c: Consolidation)
    requires c.From(st)
    ensures forall i: nat | i < |c.changed| && IsSourceOf(c.Recorded(st), c.changed[i].id) :: !Rewritten(c, i)
    ensures SourcesDead(c.Recorded(st), c.Extracted(st).rows)
  {
    AllTended(st, c);
    var edges := c.Recorded(st);
    forall i: nat | i < |c.changed| && IsSourceOf(edges, c.changed[i].id)
      ensures !Rewritten(c, i) && c.changed[i].id in c.Extracted(st).rows
      ensures c.Extracted(st).rows[c.changed[i].id].tombstone
    {
      AttemptDecidesSource(c.Tended(st), c.changed, c.runs, IndexByRef(c.all), c.now, |c.changed|, i);
      AttemptsHaveEntities(st, c, i);
      FinalRow(st, c, i);
    }
    PassKeepsShape(c.Tended(st), c.changed, c.runs, IndexByRef(c.all), c.now, |c.changed|);
    forall e | e in edges
      ensures e.fact.sourceId in c.Extracted(st).rows && c.Extracted(st).rows[e.fact.sourceId].tombstone
    {
      var k :| 0 <= k < |c.changed| && c.changed[k].id == e.fact.sourceId;
      assert IsSourceOf(edges, c.changed[k].id);
    }
  }

  // ---------------------------------------------------------------- survivors at the end

  /** The lookup finds the row with its entities. */
  predicate FoundWithEntities(index: map<nat, MemoryItem>, id: string) {
    exists v :: v in index && index[v].id == id && index[v].entities != []
  }

  /** Every target shares an entity with its source. */
  lemma {:induction false} TargetsHaveEntities(st: Store, changed: seq<MemoryItem>, runs: seq<SourceRun>,
                                               index: map<nat, MemoryItem>, at: nat, n: nat)
    requires n <= |changed| == |runs| && forall i | 0 <= i < |changed| :: changed[i].id in st.rows
    ensures var st' := MergePass(st, changed, runs, index, at, n).store;
            && st'.merges == st.merges + Edges(st, st')
            && forall e | e in Edges(st, st') :: FoundWithEntities(index, e.fact.targetId)
    decreases n
  {
    if n == 0 {
      assert Edges(st, st) == [];
    } else {
      var p, p' := MergePass(st, changed, runs, index, at, n - 1), MergePass(st, changed, runs, index, at, n);
      TargetsHaveEntities(st, changed, runs, index, at, n - 1);
      PassCounts(st, changed, runs, index, at, n - 1);
      AttemptIsAll(p, changed[n - 1], runs[n - 1], index, at);
      var h := SourceEffect(p, changed[n - 1], runs[n - 1], index, at);
      if h.Some? && h.value.backend.recordOk {
        EdgesSnoc(st, p.store, p'.store, p'.store.merges[|p.store.merges|]);
        assert FoundWithEntities(index, index[h.value.vecId].id);
      } else {
        assert Edges(st, p'.store) == Edges(st, p.store);
      }
    }
  }

  /** Late extraction rewrites no row that others were merged into. */
  lemma TargetKeepsRow(st: Store, c: Consolidation, e: MergeRow)
    requires c.From(st) && e in c.Recorded(st)
    ensures var tgt := e.fact.targetId;
            && tgt in c.Merged(st).rows && tgt in c.Extracted(st).rows
            && c.Extracted(st).rows[tgt] == c.Merged(st).rows[tgt]
  {
    var tgt := e.fact.targetId;
    AllTended(st, c);
    TargetsHaveEntities(c.Tended(st), c.changed, c.runs, IndexByRef(c.all), c.now, |c.changed|);
    PassKeepsShape(c.Tended(st), c.changed, c.runs, IndexByRef(c.all), c.now, |c.changed|);
    FindsListed(c.all);
    if i: nat :| i < |c.changed| && c.changed[i].id == tgt {
      TendedRows(st, c, i);
      FinalRow(st, c, i);
      assert PendingEmpty(c.changed[i]);
    } else {
      ReextractLeavesRest(c.Merged(st), c.changed, c.extracts, c.now, |c.changed|, tgt);
    }
  }

  lemma TargetsKept(st: Store, c: Consolidation)
    requires c.From(st)
    ensures NoLostTarget(c.Recorded(st), c.Extracted(st).rows) <==> NoLostTarget(c.Recorded(st), c.Merged(st).rows)
  {
    forall e | e in c.Recorded(st)
      ensures e.fact.targetId in c.Merged(st).rows && e.fact.targetId in c.Extracted(st).rows
      ensures c.Extracted(st).rows[e.fact.targetId] == c.Merged(st).rows[e.fact.targetId]
    {
      TargetKeepsRow(st, c, e);
    }
  }

  /** At the end of a consolidation with any calls failing, every memory it merged away is tombstoned, and each leads
      to a live one exactly when no merge went into a memory that already led back to its source or that was left
      half merged itself. The count is that of the new log rows. */
  lemma ConsolidationKeepsSurvivorsIff(st: Store, c: Consolidation)
    requires c.From(st)
    ensures SourcesDead(c.Recorded(st), c.Extracted(st).rows)
    ensures AllSurvive(c.Recorded(st), c.Extracted(st).rows)
            <==> && NoWayBack(c.Recorded(st))
                 && NoHalfMergedTarget(c.Tended(st), c.changed, c.runs, IndexByRef(c.all), c.now)
    ensures c.Merging(st).merged == |c.Recorded(st)|
  {
    AllTended(st, c);
    MergedStayMerged(st, c);
    PassKeepsShape(c.Tended(st), c.changed, c.runs, IndexByRef(c.all), c.now, |c.changed|);
    PassCounts(c.Tended(st), c.changed, c.runs, IndexByRef(c.all), c.now, |c.changed|);
    TargetsKept(st, c);
    AllSurviveIff(c.Recorded(st), c.Extracted(st).rows);
    NoLostTargetIff(c.Tended(st), c.changed, c.runs, IndexByRef(c.all), c.now);
  }

  // ---------------------------------------------------------------- followers

  /** What the calls of each phase must agree on: those made for each memory, and each merge attempt; and every
      memory rewritten must be logged, or neither recycled nor promoted before. */
  ghost predicate TendingAgrees(st: Store, c: Consolidation)
    requires c.Fits()
  {
    forall i | 0 <= i < |c.changed| :: SagaPhases.CallsAgree(st.rows, c.changed[i], c.verdicts[i], c.calls[i])
  }

  ghost predicate MergingAgrees(st: Store, c: Consolidation)
    requires c.Fits()
  {
    forall i: nat | i < |c.changed| ::
      SagaPhases.SourceAgrees(c.Tended(st), c.changed, c.runs, IndexByRef(c.all), c.now, i)
  }

  ghost predicate ExtractingAgrees(c: Consolidation)
    requires c.Fits()
  {
    forall i: nat | i < |c.changed| && Rewritten(c, i) ::
      c.extracts[i].appendOk || (!Recycled(c, i) && !Promoted(c, i))
  }

  lemma ExtractsInStep(st: Store, c: Consolidation)
    requires c.From(st) && InStep(c.Merged(st))
    ensures InStep(c.Extracted(st)) <==> ExtractingAgrees(c)
  {
    SagaPhases.ReextractPassInStepIff(c.Merged(st), c.changed, c.extracts, c.now);
    forall i: nat | i < |c.changed|
      ensures SagaPhases.RewriteAgrees(c.Merged(st).rows, c.changed[i], c.extracts[i])
              <==> (Rewritten(c, i) ==> c.extracts[i].appendOk || (!Recycled(c, i) && !Promoted(c, i)))
    {
      FinalRow(st, c, i);
      if c.Attempt(st, i).Some? {
        AttemptsHaveEntities(st, c, i);
      }
    }
  }

  /** As long as no row was removed by a reconcile, all of the follower's rows are the leader's, and a consolidation
      keeps it so. */
  lemma ConsolidationKeepsNothingMore(st: Store, c: Consolidation)
    requires c.Fits() && NothingMore(st)
    ensures NothingMore(c.Extracted(st))
  {
    SagaPhases.UpkeepKeepsNothingMore(st, c.changed, c.verdicts, c.calls, c.now, |c.changed|);
    SagaPhases.MergeKeepsNothingMore(c.Tended(st), c.changed, c.runs, IndexByRef(c.all), c.now, |c.changed|);
    SagaPhases.ReextractKeepsNothingMore(c.Merged(st), c.changed, c.extracts, c.now, |c.changed|);
  }

  /** A consolidation that finds a follower in step leaves it in step after its first phase exactly when the calls of
      that phase agree, then after the second exactly when those of the second do, and then at the end exactly
      when those of the third do. */
  lemma ConsolidationInStepIff(st: Store, c: Consolidation)
    requires c.From(st) && InStep(st)
    ensures InStep(c.Tended(st)) <==> TendingAgrees(st, c)
    ensures TendingAgrees(st, c) ==> (InStep(c.Merged(st)) <==> MergingAgrees(st, c))
    ensures TendingAgrees(st, c) && MergingAgrees(st, c) ==> (InStep(c.Extracted(st)) <==> ExtractingAgrees(c))
  {
    SagaPhases.UpkeepPassInStepIff(st, c.changed, c.verdicts, c.calls, c.now);
    if InStep(c.Tended(st)) {
      SagaPhases.MergePassInStepIff(c.Tended(st), c.changed, c.runs, IndexByRef(c.all), c.now);
    }
    if InStep(c.Merged(st)) {
      ExtractsInStep(st, c);
    }
  }

  // ---------------------------------------------------------------- a recycled memory that comes back

  /** A consolidation of one memory in which no call fails recycles it, and the late extraction brings it back live
      and without its vector. */
  ghost predicate Revives(st: Store, c: Consolidation) {
    && c.From(st) && |c.changed| == 1 && c.calls[0] == UpkeepCalls(true, true, true, true) && Recycled(c, 0)
    && c.extracts[0].putOk && c.extracts[0].appendOk
    && var m := c.changed[0];
       && m.id in c.Tended(st).rows && c.Tended(st).rows[m.id].tombstone
       && m.id in c.Extracted(st).rows && !c.Extracted(st).rows[m.id].tombstone
       && Ref(m).Some? && Ref(m).value in st.vectors && Ref(m).value !in c.Extracted(st).vectors
  }

  function Waiting(vectorRef: string): MemoryItem {
    MemoryItem("m", "ix", "s", "", "", "", Episodic, Working, "c", [], vectorRef, 0, 0, 0, false, true)
  }

  /** There is one. */
  lemma ReextractRevivesRecycled() returns (st: Store, c: Consolidation)
    ensures Good(st) && Revives(st, c)
  {
    var m := Waiting(Decimal(1));
    DecimalRoundTrip(1);
    assert Ref(m) == Some(1);
    st := Store(map[m.id := m], map[1 := []], [], 0, [], 0);
    c := Consolidation([m], [Recycle], [UpkeepCalls(true, true, true, true)], [], [SourceRun(true, Some([]))],
                       [ExtractRun(Some([]), true, true)], 0);
    TendsOne(st, c, m);
    FinalRow(st, c, 0);
    VectorStaysGone(st, c, m);
  }

  lemma TendsOne(st: Store, c: Consolidation, m: MemoryItem)
    requires c.Fits() && c.changed == [m] && c.verdicts == [Recycle] && c.calls == [UpkeepCalls(true, true, true, true)]
    requires m.id in st.rows && Ref(m).Some?
    ensures c.Tended(st).rows == st.rows[m.id := st.rows[m.id].(tombstone := true)]
    ensures c.Tended(st).vectors == st.vectors - {Ref(m).value}
  {
    assert UpkeepPass(st, c.changed, c.verdicts, c.calls, c.now, 0).store == st;
  }

  lemma VectorStaysGone(st: Store, c: Consolidation, m: MemoryItem)
    requires c.Fits() && c.changed == [m] && m.memoryType == Episodic && Ref(m).Some?
    requires Ref(m).value !in c.Tended(st).vectors && m.id in c.Tended(st).rows
    ensures Ref(m).value !in c.Extracted(st).vectors
  {
    assert MergePass(c.Tended(st), c.changed, c.runs, IndexByRef(c.all), c.now, 0).store == c.Tended(st);
    assert c.Merged(st) == c.Tended(st);
    ReextractKeepsKeys(c.Merged(st), c.changed, c.extracts, c.now, 1);
  }
}
