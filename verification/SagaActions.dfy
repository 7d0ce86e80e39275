/** The leader actions of the convergence runs are what the engine's operations do when their calls succeed: rows and
    log alike, operation by operation. */
module SagaActions {
  import opened Basics
  import opened Items
  import opened Saga
  import Convergence

  function LeaderOf(st: Store): Convergence.Leader {
    Convergence.Leader(st.rows, st.wops)
  }

  /** Entries have been numbered from 1 on without a gap. */
  predicate Numbered(st: Store) {
    st.lastSeq == |st.wops|
  }

  /** The engine's step is the leader action, and goes on numbering without a gap. */
  ghost predicate Does(st: Store, st': Store, action: Convergence.Action, at: nat) {
    Numbered(st') && LeaderOf(st') == Convergence.Act(LeaderOf(st), action, at)
  }

  lemma CommitIsAction(st: Store, x: Interaction, turn: Turn, run: TurnRun, now: nat)
    returns (stored: Store, item: MemoryItem)
    requires Numbered(st) && run.embedding.Some? && run.insertOk && run.persistOk
    ensures item.id == run.id && Does(st, stored, Convergence.Commit(item, run.embedding.value), now)
    ensures var st' := CommitTurn(st, x, turn, run, now).0;
            match run.attached
            case None => st' == stored
            case Some((entities, success)) =>
              Does(stored, st', Convergence.Attach(run.id, entities, success), now)
  {
    item := NewItem(x, turn, run, now);
    stored := CommitTurn(st, x, turn, run.(attached := None), now).0;
    assert stored.wops + [] == stored.wops;
  }

  lemma DeleteIsAction(st: Store, id: string, calls: DeleteCalls, now: nat)
    requires Numbered(st)
    ensures var (st', done) := Delete(st, id, calls, now);
            done ==> Does(st, st', Convergence.Delete(id), now)
  {
  }

  lemma RecycleIsAction(u: Upkeep, m: MemoryItem, c: UpkeepCalls, now: nat)
    requires Numbered(u.store) && c.tombstoneOk && c.appendOk
    ensures Does(u.store, RecycleOne(u, m, c, now).store, Convergence.Recycle(m), now)
  {
  }

  lemma PromoteIsAction(u: Upkeep, m: MemoryItem, c: UpkeepCalls, now: nat)
    requires Numbered(u.store) && c.putOk && c.appendOk
    ensures Does(u.store, PromoteOne(u, m, c, now).store, Convergence.Promote(m), now)
  {
  }

  lemma MergeIsAction(st: Store, src: string, vr: nat, vec: Vector, tgt: string, b: Backend, at: nat)
    requires Numbered(st) && if b.recordOk then b.appendOk else b.untombstoneOk
    ensures Does(st, MergeInto(st, src, vr, vec, tgt, b, at).0, Convergence.Merge(src, tgt, b.recordOk), at)
  {
    assert st.wops + [] == st.wops;
  }

  lemma ReextractIsAction(x: Reextract, m: MemoryItem, entities: seq<string>, run: ExtractRun, now: nat)
    requires Numbered(x.store) && m.entitiesPending && run == ExtractRun(Some(entities), true, true)
    ensures Does(x.store, ReextractOne(x, m, run, now).store, Convergence.Reextract(m, entities), now)
  {
  }

  lemma ReconcileIsAction(st: Store, scope: Scope, run: ReconcileRun, now: nat) returns (gone: set<string>)
    requires Numbered(st) && Reconcile(st, scope, run).1.Ok?
    ensures Does(st, Reconcile(st, scope, run).0, Convergence.Remove(gone), now)
    ensures forall id | id in gone :: id in st.rows && st.rows[id].tombstone
  {
    gone := Removable(st, run) - run.locked;
    assert st.wops + [] == st.wops;
  }
}
