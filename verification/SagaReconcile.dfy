/** What one reconcile run leaves, that a second run finds nothing to do, and what an unmerge brings back. */
module SagaReconcile {
  import opened Basics
  import opened Items
  import opened Saga
  import opened SagaMerge
  import opened TextFormat
  import Namespace

  /** A live row of the run's tenant that its namespace shows refers to the vector. */
  predicate SeenRef(rows: Rows, scope: Scope, v: nat) {
    exists id :: && id in rows && !rows[id].tombstone && rows[id].tenant == scope.tenant
                 && Namespace.Visible(scope.filter, rows[id].namespace, rows[id].namespaceKey)
                 && ParseU64(rows[id].vectorRef) == Some(v)
  }

  /** Rows a reconcile run keeps: live ones, merge sources, and those whose reference cannot be read. */
  predicate Keeps(st: Store, id: string) {
    id in st.rows && (!st.rows[id].tombstone || id in Sources(st.merges) || Ref(st.rows[id]).None?)
  }

  lemma RemovableIff(st: Store, id: string)
    ensures id in Removable(st, NO_TROUBLE) <==> id in st.rows && !Keeps(st, id)
  {
  }

  lemma RowsLeft(st: Store, scope: Scope)
    ensures var (st', n) := Reconcile(st, scope, NO_TROUBLE);
            && (forall id :: id in st'.rows <==> Keeps(st, id))
            && (forall id | id in st'.rows :: st'.rows[id] == st.rows[id])
            && n == Ok(|st.rows| - |st'.rows|)
  {
    var removable := Removable(st, NO_TROUBLE);
    var (st', n) := Reconcile(st, scope, NO_TROUBLE);
    assert removable - NO_TROUBLE.locked == removable;
    assert st'.rows == st.rows - removable && n == Ok(|removable|);
    forall id ensures id in removable <==> id in st.rows && !Keeps(st, id) {
      RemovableIff(st, id);
    }
    MapMinusSize(st.rows, removable);
  }

  /** A live row shares its reference with no row that is removed. */
  lemma LiveRefStays(st: Store, id: string, v: nat)
    requires RefsInjective(st.rows) && id in st.rows && !st.rows[id].tombstone && Ref(st.rows[id]) == Some(v)
    ensures v !in RefsOf(st.rows, Removable(st, NO_TROUBLE))
  {
    forall other | other in st.rows && Ref(st.rows[other]) == Some(v) ensures other == id {
    }
  }

  lemma VectorLeft(st: Store, scope: Scope, v: nat)
    requires RefsInjective(st.rows)
    ensures v in Reconcile(st, scope, NO_TROUBLE).0.vectors <==> v in st.vectors && SeenRef(st.rows, scope, v)
  {
    assert v in LiveRefs(st.rows, scope) <==> SeenRef(st.rows, scope, v);
    if SeenRef(st.rows, scope, v) {
      var id :| id in st.rows && Sees(scope, st.rows[id]) && Ref(st.rows[id]) == Some(v);
      LiveRefStays(st, id, v);
    }
  }

  /** With succeeding backends, the stored vectors left are exactly those that a live row in scope refers to, the
      rows left are the live ones, the merge sources and those with an unreadable reference, nothing kept is
      altered, and the answer counts the rows that went. */
  lemma ReconcileResult(st: Store, scope: Scope)
    requires RefsInjective(st.rows)
    ensures var (st', n) := Reconcile(st, scope, NO_TROUBLE);
            && (forall v :: v in st'.vectors <==> v in st.vectors && SeenRef(st.rows, scope, v))
            && (forall v | v in st'.vectors :: st'.vectors[v] == st.vectors[v])
            && (forall id :: id in st'.rows <==> Keeps(st, id))
            && (forall id | id in st'.rows :: st'.rows[id] == st.rows[id])
            && n == Ok(|st.rows| - |st'.rows|)
            && st'.merges == st.merges && st'.wops == st.wops
  {
    RowsLeft(st, scope);
    forall v
      ensures v in Reconcile(st, scope, NO_TROUBLE).0.vectors <==> v in st.vectors && SeenRef(st.rows, scope, v)
    {
      VectorLeft(st, scope, v);
    }
  }

  lemma NothingToDo(st: Store, scope: Scope)
    requires Removable(st, NO_TROUBLE) == {} && st.vectors.Keys <= LiveRefs(st.rows, scope)
    ensures Reconcile(st, scope, NO_TROUBLE) == (st, Ok(0))
  {
    MapMinusNothing(st.vectors, Orphans(st, scope, NO_TROUBLE));
    MapMinusNothing(st.vectors, RefsOf(st.rows, {}));
    MapMinusNothing(st.rows, Removable(st, NO_TROUBLE) - NO_TROUBLE.locked);
  }

  /** A second run removes nothing and changes no row and no vector, whatever the references are. */
  lemma ReconcileFixpoint(st: Store, scope: Scope)
    ensures var st' := Reconcile(st, scope, NO_TROUBLE).0;
            Reconcile(st', scope, NO_TROUBLE) == (st', Ok(0))
  {
    var st' := Reconcile(st, scope, NO_TROUBLE).0;
    RowsLeft(st, scope);
    forall v | v in st'.vectors ensures v in LiveRefs(st'.rows, scope) {
      assert v in LiveRefs(st.rows, scope);
      var id :| id in st.rows && Sees(scope, st.rows[id]) && Ref(st.rows[id]) == Some(v);
      assert Keeps(st, id);
    }
    NothingToDo(st', scope);
  }

  /** The run looks only at live rows in its scope but at every stored vector: a live row keeps its vector exactly
      when it belongs to the run's tenant and is visible in the run's namespace. */
  lemma OutOfScopeRowsLoseTheirVectors(st: Store, scope: Scope, id: string)
    requires RefsInjective(st.rows) && id in st.rows && !st.rows[id].tombstone
    requires Ref(st.rows[id]).Some? && Ref(st.rows[id]).value in st.vectors
    ensures Ref(st.rows[id]).value in Reconcile(st, scope, NO_TROUBLE).0.vectors <==> Sees(scope, st.rows[id])
  {
    var v := Ref(st.rows[id]).value;
    VectorLeft(st, scope, v);
    if SeenRef(st.rows, scope, v) {
      var other :| other in st.rows && Sees(scope, st.rows[other]) && Ref(st.rows[other]) == Some(v);
      assert other == id;
    }
  }

  // ---------------------------------------------------------------- a run with any failures

  /** A tombstoned row that the run takes for removable: its vector can be deleted, and it is no merge source as far as
      the merge log could be read. */
  predicate Doomed(st: Store, run: ReconcileRun, id: string) {
    && id in st.rows && st.rows[id].tombstone
    && ParseU64(st.rows[id].vectorRef).Some? && ParseU64(st.rows[id].vectorRef).value !in run.stuck
    && !(run.mergesListed && exists m :: m in st.merges && m.fact.sourceId == id)
  }

  lemma DoomedIsRemovable(st: Store, run: ReconcileRun, id: string)
    ensures id in Removable(st, run) <==> Doomed(st, run, id)
  {
    assert id in Sources(st.merges) <==> exists m :: m in st.merges && m.fact.sourceId == id;
  }

  lemma DoomedRefs(st: Store, run: ReconcileRun, v: nat)
    ensures v in RefsOf(st.rows, Removable(st, run))
            <==> exists id :: Doomed(st, run, id) && ParseU64(st.rows[id].vectorRef) == Some(v)
  {
    forall id ensures id in Removable(st, run) <==> Doomed(st, run, id) {
      DoomedIsRemovable(st, run, id);
    }
  }

  lemma SeenRefs(rows: Rows, scope: Scope, v: nat)
    ensures v in LiveRefs(rows, scope) <==> SeenRef(rows, scope, v)
  {
  }

  /** The vector stays: it is stuck, or a live row in scope refers to it, as far as vectors are listed, and no removable
      row does. */
  ghost predicate VectorStays(st: Store, scope: Scope, run: ReconcileRun, v: nat) {
    v in run.stuck || (&& (run.vectorsListed ==> SeenRef(st.rows, scope, v))
                       && !(run.tombsListed && exists id :: Doomed(st, run, id)
                                                            && ParseU64(st.rows[id].vectorRef) == Some(v)))
  }

  lemma VectorsLeft(st: Store, scope: Scope, run: ReconcileRun, v: nat)
    requires run.rowsListed
    ensures var vectors := Reconcile(st, scope, run).0.vectors;
            && (v in vectors <==> v in st.vectors && VectorStays(st, scope, run, v))
            && (v in vectors ==> vectors[v] == st.vectors[v])
  {
    DoomedRefs(st, run, v);
    SeenRefs(st.rows, scope, v);
    if v in run.stuck {
      assert v !in RefsOf(st.rows, Removable(st, run));
    }
  }

  /** Exactly the removable rows go that are not locked, and the answer counts them. */
  lemma RowsLeftOver(st: Store, scope: Scope, run: ReconcileRun)
    requires run.rowsListed
    ensures var (st', n) := Reconcile(st, scope, run);
            && (forall id :: id in st'.rows <==> && id in st.rows
                                                 && !(run.tombsListed && Doomed(st, run, id) && id !in run.locked))
            && (forall id | id in st'.rows :: st'.rows[id] == st.rows[id])
            && n == if run.tombsListed then Ok(|st.rows| - |st'.rows|) else Err("list_tombstoned")
  {
    var gone := Removable(st, run) - run.locked;
    forall id ensures id in Removable(st, run) <==> Doomed(st, run, id) {
      DoomedIsRemovable(st, run, id);
    }
    MapMinusSize(st.rows, gone);
  }

  /** What a reconcile does whatever listings and deletions fail. Without the rows in scope nothing is touched. Else a
      stored vector goes exactly when it can be deleted and no live row in scope refers to it, as far as vectors are
      listed, or a removable row does; and exactly the removable rows go that can be removed. */
  lemma ReconcileExactly(st: Store, scope: Scope, run: ReconcileRun)
    ensures var (st', n) := Reconcile(st, scope, run);
            && st'.merges == st.merges && st'.wops == st.wops
            && (!run.rowsListed ==> st' == st && n == Err("list_all"))
            && (run.rowsListed ==>
                  && (forall v :: v in st'.vectors <==> v in st.vectors && VectorStays(st, scope, run, v))
                  && (forall v | v in st'.vectors :: st'.vectors[v] == st.vectors[v])
                  && (forall id :: id in st'.rows
                                   <==> && id in st.rows
                                        && !(run.tombsListed && Doomed(st, run, id) && id !in run.locked))
                  && (forall id | id in st'.rows :: st'.rows[id] == st.rows[id])
                  && n == if run.tombsListed then Ok(|st.rows| - |st'.rows|) else Err("list_tombstoned"))
  {
    if run.rowsListed {
      RowsLeftOver(st, scope, run);
      var vectors := Reconcile(st, scope, run).0.vectors;
      forall v
        ensures v in vectors <==> v in st.vectors && VectorStays(st, scope, run, v)
        ensures v in vectors ==> vectors[v] == st.vectors[v]
      {
        VectorsLeft(st, scope, run, v);
      }
    }
  }

  // ---------------------------------------------------------------- the merge log

  ghost predicate DistinctMerges(merges: seq<MergeRow>) {
    forall i, j | 0 <= i < j < |merges| :: merges[i].id != merges[j].id
                                           && merges[i].fact.sourceId != merges[j].fact.sourceId
  }

  /** A merged memory is still there, tombstoned and with a readable reference. Its vector is gone or, where the
      merge could not delete it, still there. */
  predicate KeptSource(st: Store, id: string) {
    id in st.rows && st.rows[id].tombstone && Ref(st.rows[id]).Some?
  }

  ghost predicate SourcesKept(st: Store) {
    forall m | m in st.merges :: KeptSource(st, m.fact.sourceId)
  }

  ghost predicate Inv(st: Store) {
    DistinctMerges(st.merges) && SourcesKept(st) && forall m | m in st.merges :: m.id < st.nextMergeId
  }

  lemma SameMerge(st: Store, m: MergeRow, n: MergeRow)
    requires DistinctMerges(st.merges) && m in st.merges && n in st.merges
    requires m.id == n.id || m.fact.sourceId == n.fact.sourceId
    ensures m == n
  {
  }

  lemma {:induction false} FindMergeFinds(merges: seq<MergeRow>, id: nat)
    ensures FindMerge(merges, id).Some? <==> exists m :: m in merges && m.id == id
    ensures FindMerge(merges, id).Some? ==> MergeRow(id, FindMerge(merges, id).value) in merges
    ensures forall m :: m in WithoutMerge(merges, id) <==> m in merges && m.id != id
  {
    if merges != [] {
      FindMergeFinds(merges[1..], id);
      assert forall m :: m in merges <==> m == merges[0] || m in merges[1..];
      var rest := WithoutMerge(merges[1..], id);
      assert forall m :: m in WithoutMerge(merges, id) <==> (merges[0].id != id && m == merges[0]) || m in rest;
    }
  }

  lemma {:induction false} WithoutKeepsDistinct(merges: seq<MergeRow>, id: nat)
    requires DistinctMerges(merges)
    ensures DistinctMerges(WithoutMerge(merges, id))
  {
    if merges != [] {
      WithoutKeepsDistinct(merges[1..], id);
      FindMergeFinds(merges[1..], id);
      var rest := WithoutMerge(merges[1..], id);
      forall m | m in rest ensures m.id != merges[0].id && m.fact.sourceId != merges[0].fact.sourceId {
        assert m in merges[1..];
      }
    }
  }

  lemma FindsIts(st: Store, m: MergeRow)
    requires DistinctMerges(st.merges) && m in st.merges
    ensures FindMerge(st.merges, m.id) == Some(m.fact)
    ensures forall n :: n in WithoutMerge(st.merges, m.id) <==> n in st.merges && n != m
    ensures m.fact.sourceId !in Sources(WithoutMerge(st.merges, m.id))
  {
    FindMergeFinds(st.merges, m.id);
    SameMerge(st, m, MergeRow(m.id, FindMerge(st.merges, m.id).value));
    forall n | n in st.merges && (n.id == m.id || n.fact.sourceId == m.fact.sourceId) ensures n == m {
      SameMerge(st, m, n);
    }
  }

  /** The calls of an unmerge succeed; an embedding is only needed when the vector is not stored any more. */
  predicate Restorable(st: Store, src: string, calls: UnmergeCalls)
    requires KeptSource(st, src)
  {
    && calls.rowOk && calls.vectorOk && calls.putOk
    && (Ref(st.rows[src]).value in st.vectors || (calls.embedding.Some? && calls.insertOk))
  }

  /** Undoing a merge succeeds exactly when its calls do, and then the source is back live with a vector under its
      own id, its log row is gone, and no other row, vector or log row is changed. */
  lemma UnmergeRestores(st: Store, m: MergeRow, calls: UnmergeCalls)
    requires Inv(st) && m in st.merges
    ensures var (st', result) := Unmerge(st, m.id, calls);
            var src := m.fact.sourceId;
            && KeptSource(st, src)
            && (result == Ok(true) <==> Restorable(st, src, calls))
            && (result == Ok(true) ==>
                  && st'.rows == st.rows[src := st.rows[src].(tombstone := false)]
                  && var ref := Ref(st.rows[src]).value;
                     st'.vectors == if ref in st.vectors then st.vectors else st.vectors[ref := calls.embedding.value])
            && (forall n :: n in st'.merges <==> n in st.merges && n != m)
            && st'.wops == st.wops
  {
    FindsIts(st, m);
    assert KeptSource(st, m.fact.sourceId);
  }

  /** An unknown merge is no error and changes nothing; a source whose row is gone is none either, and costs only the
      log row. */
  lemma NothingToUnmerge(st: Store, id: nat, calls: UnmergeCalls)
    ensures (forall m | m in st.merges :: m.id != id) ==> Unmerge(st, id, calls) == (st, Ok(false))
    ensures calls.rowOk && (forall m | m in st.merges && m.id == id :: m.fact.sourceId !in st.rows) ==>
              && Unmerge(st, id, calls).1 == Ok(false)
              && Unmerge(st, id, calls).0 == st.(merges := Unmerge(st, id, calls).0.merges)
              && forall m :: m in Unmerge(st, id, calls).0.merges <==> m in st.merges && m.id != id
  {
    FindMergeFinds(st.merges, id);
  }

  /** The log row goes before anything else is tried. If a later call fails, the next reconcile removes the
      source for good: it is still there exactly when every call needed succeeded. */
  lemma UnmergeSurvivesReconcileIff(st: Store, m: MergeRow, calls: UnmergeCalls, scope: Scope)
    requires Inv(st) && m in st.merges
    ensures var st' := Unmerge(st, m.id, calls).0;
            && KeptSource(st, m.fact.sourceId)
            && (m.fact.sourceId in Reconcile(st', scope, NO_TROUBLE).0.rows
                <==> Restorable(st, m.fact.sourceId, calls))
  {
    FindsIts(st, m);
    var src := m.fact.sourceId;
    assert KeptSource(st, src);
    var st' := Unmerge(st, m.id, calls).0;
    assert src in st'.rows && st'.merges == WithoutMerge(st.merges, m.id);
    assert st'.rows[src].tombstone <==> !Restorable(st, src, calls);
    assert Ref(st'.rows[src]).Some?;
    RowsLeft(st', scope);
  }

  /** A reconcile run keeps the merged memories exactly when it could read the merge log or ended early. */
  lemma ReconcileKeepsSourcesIff(st: Store, scope: Scope, run: ReconcileRun)
    requires Inv(st) && st.merges != [] && run.stuck == {} && run.locked == {}
    ensures SourcesKept(Reconcile(st, scope, run).0) <==> run.mergesListed || !run.rowsListed || !run.tombsListed
  {
    var st' := Reconcile(st, scope, run).0;
    if run.mergesListed || !run.rowsListed || !run.tombsListed {
      forall m | m in st.merges ensures KeptSource(st', m.fact.sourceId) {
        assert m.fact.sourceId in Sources(st.merges) && KeptSource(st, m.fact.sourceId);
      }
    } else {
      var m := st.merges[0];
      assert m in st.merges && KeptSource(st, m.fact.sourceId);
      assert m.fact.sourceId in Removable(st, run);
      assert !KeptSource(st', m.fact.sourceId);
    }
  }
}
