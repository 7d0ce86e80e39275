/** The engine's own operations against the log they write: exactly when a follower that replays the log still
    has the leader's rows afterwards, call by call, and what whole phases keep. */
module SagaConvergence {
  import opened Basics
  import opened TextFormat
  import opened Items
  import opened Saga
  import Replay
  import Replication
  import Convergence

  function FollowerRows(st: Store): Rows {
    Replay.Replayed(Replay.BLANK, st.wops, 0, |st.wops|).rows
  }

  /** The follower has the leader's rows, and beyond them only tombstoned ones: those that a reconcile removed. */
  ghost predicate InStep(st: Store) {
    Convergence.Covered(st.rows, FollowerRows(st))
  }

  /** Tombstoning it changes nothing. */
  predicate Gone(rows: Rows, id: string) {
    id in rows ==> rows[id].tombstone
  }

  lemma FollowerAfter(st: Store, st': Store, e: WopEntry)
    requires st'.wops == st.wops + [e]
    ensures FollowerRows(st') == Replay.Effect(Replay.Replayed(Replay.BLANK, st.wops, 0, |st.wops|), e).rows
  {
    Replication.ReplayedGrows(Replay.BLANK, st.wops, [e], 0, |st.wops|);
  }

  lemma BothTombstone(mine: Rows, theirs: Rows, id: string)
    requires Convergence.Covered(mine, theirs)
    ensures Convergence.Covered(WithTombstone(mine, id, true), WithTombstone(theirs, id, true))
  {
  }

  lemma LeaderTombstones(mine: Rows, theirs: Rows, id: string)
    requires Convergence.Covered(mine, theirs)
    ensures Convergence.Covered(WithTombstone(mine, id, true), theirs) <==> Gone(mine, id)
  {
    if id in mine && !mine[id].tombstone {
      assert WithTombstone(mine, id, true)[id].tombstone && !theirs[id].tombstone;
    }
  }

  lemma FollowerTombstonesAlone(mine: Rows, theirs: Rows, id: string)
    requires Convergence.Covered(mine, theirs)
    ensures Convergence.Covered(mine, WithTombstone(theirs, id, true)) <==> Gone(mine, id)
  {
    if id in mine && !mine[id].tombstone {
      assert WithTombstone(theirs, id, true)[id].tombstone;
    }
  }

  lemma TombstoneTwins(mine: Rows, theirs: Rows, id: string)
    requires Convergence.Covered(mine, theirs)
    ensures Convergence.Covered(WithTombstone(mine, id, true), WithTombstone(theirs, id, true))
    ensures Convergence.Covered(WithTombstone(mine, id, true), theirs) <==> Gone(mine, id)
    ensures Convergence.Covered(mine, WithTombstone(theirs, id, true)) <==> Gone(mine, id)
  {
    BothTombstone(mine, theirs, id);
    LeaderTombstones(mine, theirs, id);
    FollowerTombstonesAlone(mine, theirs, id);
  }

  lemma CommitTwins(mine: Rows, theirs: Rows, item: MemoryItem, attached: Option<(seq<string>, bool)>)
    requires Convergence.Covered(mine, theirs)
    ensures Convergence.Covered(Attach(Put(mine, item), item.id, attached), Put(theirs, item))
  {
  }

  lemma UndoneTwins(mine: Rows, theirs: Rows, id: string)
    requires Convergence.Covered(mine, theirs)
    ensures Convergence.Covered(WithTombstone(WithTombstone(mine, id, true), id, false), theirs)
            <==> (id in mine ==> !mine[id].tombstone)
  {
  }

  // ---------------------------------------------------------------- what the follower makes of each entry

  lemma FollowerCommits(st: Store, st': Store, item: MemoryItem, vector: Option<Vector>, now: nat)
    requires st'.wops == st.wops + [WopEntry(st.lastSeq + 1, "commit", Envelope(item, vector), now)] && Ref(item).Some?
    ensures FollowerRows(st') == Put(FollowerRows(st), item)
  {
    var e := WopEntry(st.lastSeq + 1, "commit", Envelope(item, vector), now);
    FollowerAfter(st, st', e);
    assert Replay.CommitRef(e).Some? && Replay.CommitItem(e) == item;
  }

  lemma FollowerTombstones(st: Store, st': Store, op: string, id: string, now: nat)
    requires op == "delete" || op == "recycle"
    requires st'.wops == st.wops + [WopEntry(st.lastSeq + 1, op, Text(id), now)]
    ensures FollowerRows(st') == WithTombstone(FollowerRows(st), id, true)
  {
    FollowerAfter(st, st', WopEntry(st.lastSeq + 1, op, Text(id), now));
  }

  lemma FollowerPromotes(st: Store, st': Store, id: string, now: nat)
    requires st'.wops == st.wops + [WopEntry(st.lastSeq + 1, "promote", Convergence.PromotePayload(id), now)]
    ensures FollowerRows(st')
            == (if TAB in id then FollowerRows(st) else Replay.Promoted(FollowerRows(st), id, Items.Long))
  {
    var e := WopEntry(st.lastSeq + 1, "promote", Convergence.PromotePayload(id), now);
    FollowerAfter(st, st', e);
    Convergence.PromoteParsesIff(id, st.lastSeq + 1, now);
    assert Replay.CommitRef(e).None?;
  }

  lemma FollowerMerges(st: Store, st': Store, src: string, tgt: string, at: nat)
    requires st'.wops == st.wops + [WopEntry(st.lastSeq + 1, "merge", Convergence.MergePayload(src, tgt, at), at)]
    ensures FollowerRows(st')
            == if TAB in src || TAB in tgt then FollowerRows(st) else WithTombstone(FollowerRows(st), src, true)
  {
    var e := WopEntry(st.lastSeq + 1, "merge", Convergence.MergePayload(src, tgt, at), at);
    FollowerAfter(st, st', e);
    Convergence.MergeParsesIff(src, tgt, st.lastSeq + 1, at);
    assert Replay.CommitRef(e).None? && !Replay.IsPromote(e);
  }

  // ---------------------------------------------------------------- what each operation does to both sides

  lemma DeleteEffect(st: Store, id: string, calls: DeleteCalls, now: nat)
    ensures var (st', done) := Delete(st, id, calls, now);
            var reached := calls.getOk && (id in st.rows && Ref(st.rows[id]).Some? ==> calls.vectorOk);
            && done == (reached && calls.tombstoneOk && calls.appendOk)
            && st'.rows == (if reached && calls.tombstoneOk then WithTombstone(st.rows, id, true) else st.rows)
            && FollowerRows(st') == (if done then WithTombstone(FollowerRows(st), id, true) else FollowerRows(st))
  {
    var (st', done) := Delete(st, id, calls, now);
    if done {
      FollowerTombstones(st, st', "delete", id, now);
    }
  }

  lemma RecycleEffect(u: Upkeep, m: MemoryItem, c: UpkeepCalls, now: nat)
    ensures var st' := RecycleOne(u, m, c, now).store;
            && st'.rows == (if c.tombstoneOk then WithTombstone(u.store.rows, m.id, true) else u.store.rows)
            && FollowerRows(st')
               == (if c.appendOk then WithTombstone(FollowerRows(u.store), m.id, true) else FollowerRows(u.store))
  {
    if c.appendOk {
      FollowerTombstones(u.store, RecycleOne(u, m, c, now).store, "recycle", m.id, now);
    }
  }

  lemma PromoteEffect(u: Upkeep, m: MemoryItem, c: UpkeepCalls, now: nat)
    ensures var st' := PromoteOne(u, m, c, now).store;
            && st'.rows == (if c.putOk then Put(u.store.rows, m.(tier := Items.Long)) else u.store.rows)
            && FollowerRows(st')
               == (if c.putOk && c.appendOk && TAB !in m.id
                   then Replay.Promoted(FollowerRows(u.store), m.id, Items.Long) else FollowerRows(u.store))
  {
    if c.putOk && c.appendOk {
      FollowerPromotes(u.store, PromoteOne(u, m, c, now).store, m.id, now);
    }
  }

  lemma MergeEffect(st: Store, src: string, vr: nat, vec: Vector, tgt: string, b: Backend, at: nat)
    ensures var st' := MergeInto(st, src, vr, vec, tgt, b, at).0;
            var dead := WithTombstone(st.rows, src, true);
            && st'.rows == (if b.recordOk || !b.untombstoneOk then dead else WithTombstone(dead, src, false))
            && FollowerRows(st')
               == (if b.recordOk && b.appendOk && TAB !in src && TAB !in tgt
                   then WithTombstone(FollowerRows(st), src, true) else FollowerRows(st))
  {
    if b.recordOk && b.appendOk {
      FollowerMerges(st, MergeInto(st, src, vr, vec, tgt, b, at).0, src, tgt, at);
    }
  }

  // ---------------------------------------------------------------- commit

  lemma CommitEffect(st: Store, x: Interaction, turn: Turn, run: TurnRun, now: nat)
    requires run.vecId < U64_LIMIT
    ensures var st' := CommitTurn(st, x, turn, run, now).0;
            var item := NewItem(x, turn, run, now);
            if run.embedding.Some? && run.insertOk && run.persistOk then
              st'.rows == Attach(Put(st.rows, item), item.id, run.attached)
              && FollowerRows(st') == Put(FollowerRows(st), item)
            else st'.rows == st.rows && FollowerRows(st') == FollowerRows(st)
  {
    if run.embedding.Some? && run.insertOk && run.persistOk {
      DecimalRoundTrip(run.vecId);
      FollowerCommits(st, CommitTurn(st, x, turn, run, now).0, NewItem(x, turn, run, now), run.embedding, now);
    }
  }

  /** A turn keeps the follower in step however its calls turn out. */
  lemma CommitTurnInStep(st: Store, x: Interaction, turn: Turn, run: TurnRun, now: nat)
    requires InStep(st) && run.vecId < U64_LIMIT
    ensures InStep(CommitTurn(st, x, turn, run, now).0)
    ensures NothingMore(st) ==> NothingMore(CommitTurn(st, x, turn, run, now).0)
  {
    CommitEffect(st, x, turn, run, now);
    CommitTwins(st.rows, FollowerRows(st), NewItem(x, turn, run, now), run.attached);
  }

  lemma {:induction false} CommitTurnsInStep(st: Store, x: Interaction, turns: seq<Turn>, runs: seq<TurnRun>,
                                             now: nat, n: nat)
    requires InStep(st) && n <= |turns| == |runs|
    requires forall run | run in runs :: run.vecId < U64_LIMIT
    ensures InStep(CommitTurns(st, x, turns, runs, now, n).store)
    ensures NothingMore(st) ==> NothingMore(CommitTurns(st, x, turns, runs, now, n).store)
    decreases n
  {
    if n > 0 {
      CommitTurnsInStep(st, x, turns, runs, now, n - 1);
      assert runs[n - 1] in runs;
      CommitTurnInStep(CommitTurns(st, x, turns, runs, now, n - 1).store, x, turns[n - 1], runs[n - 1], now);
    }
  }

  // ---------------------------------------------------------------- delete and recycle

  /** A delete leaves leader and follower apart exactly when its row was tombstoned just now and the log
      append then failed. */
  lemma DeleteInStepIff(st: Store, id: string, calls: DeleteCalls, now: nat)
    requires InStep(st)
    ensures var reached := calls.getOk && (id in st.rows && Ref(st.rows[id]).Some? ==> calls.vectorOk);
            InStep(Delete(st, id, calls, now).0)
            <==> (reached && calls.tombstoneOk && !calls.appendOk ==> Gone(st.rows, id))
    ensures NothingMore(st) ==> NothingMore(Delete(st, id, calls, now).0)
  {
    TombstoneTwins(st.rows, FollowerRows(st), id);
    DeleteEffect(st, id, calls, now);
  }

  /** Recycling appends to the log whether or not the row could be tombstoned: the follower stays in step
      exactly when both calls end alike or there was nothing to tombstone. */
  lemma RecycleInStepIff(u: Upkeep, m: MemoryItem, calls: UpkeepCalls, now: nat)
    requires InStep(u.store)
    ensures InStep(RecycleOne(u, m, calls, now).store)
            <==> calls.tombstoneOk == calls.appendOk || Gone(u.store.rows, m.id)
  {
    TombstoneTwins(u.store.rows, FollowerRows(u.store), m.id);
    RecycleEffect(u, m, calls, now);
  }

  // ---------------------------------------------------------------- promote

  function LongShape(m: MemoryItem): MemoryItem {
    Convergence.ShapeOf(m.(tier := Items.Long))
  }

  /** Writing back `m` with the new tier at the leader, and setting the tier at the follower or not. */
  lemma PromoteTwins(mine: Rows, theirs: Rows, m: MemoryItem, there: bool)
    requires Convergence.Covered(mine, theirs) && !m.tombstone
    ensures Convergence.Covered(Put(mine, m.(tier := Items.Long)),
                                  if there then Replay.Promoted(theirs, m.id, Items.Long) else theirs)
            <==> m.id in mine && LongShape(m) == LongShape(mine[m.id]) && (!there ==> mine[m.id].tier == Items.Long)
  {
    var mine' := Put(mine, m.(tier := Items.Long));
    var theirs' := if there then Replay.Promoted(theirs, m.id, Items.Long) else theirs;
    assert m.id in mine' && theirs'.Keys == theirs.Keys;
  }

  /** A promotion that is logged must find the row it was read from unchanged but for its tier; one that is
      not logged, or whose id holds a tab, must also find it promoted already. */
  lemma PromoteInStepIff(u: Upkeep, m: MemoryItem, calls: UpkeepCalls, now: nat)
    requires InStep(u.store) && !m.tombstone
    ensures var rows := u.store.rows;
            InStep(PromoteOne(u, m, calls, now).store)
            <==> (calls.putOk ==> && m.id in rows && LongShape(m) == LongShape(rows[m.id])
                                  && (!calls.appendOk || TAB in m.id ==> rows[m.id].tier == Items.Long))
  {
    PromoteEffect(u, m, calls, now);
    PromoteTwins(u.store.rows, FollowerRows(u.store), m, calls.appendOk && TAB !in m.id);
  }

  // ---------------------------------------------------------------- merge

  lemma RecordedMerge(st: Store, src: string, vr: nat, vec: Vector, tgt: string, b: Backend, at: nat)
    requires InStep(st) && b.recordOk
    ensures InStep(MergeInto(st, src, vr, vec, tgt, b, at).0)
            <==> (b.appendOk && TAB !in src && TAB !in tgt) || Gone(st.rows, src)
  {
    MergeEffect(st, src, vr, vec, tgt, b, at);
    TombstoneTwins(st.rows, FollowerRows(st), src);
  }

  lemma UnrecordedMerge(st: Store, src: string, vr: nat, vec: Vector, tgt: string, b: Backend, at: nat)
    requires InStep(st) && !b.recordOk
    ensures InStep(MergeInto(st, src, vr, vec, tgt, b, at).0)
            <==> if b.untombstoneOk then src in st.rows ==> !st.rows[src].tombstone else Gone(st.rows, src)
  {
    MergeEffect(st, src, vr, vec, tgt, b, at);
    TombstoneTwins(st.rows, FollowerRows(st), src);
    UndoneTwins(st.rows, FollowerRows(st), src);
  }

  /** A recorded merge must be logged under ids without tabs; one that failed must be undone by untombstoning
      a row that was live. Otherwise the source must have been tombstoned before. */
  lemma MergeInStepIff(st: Store, src: string, vr: nat, vec: Vector, tgt: string, b: Backend, at: nat)
    requires InStep(st)
    ensures InStep(MergeInto(st, src, vr, vec, tgt, b, at).0)
            <==> if b.recordOk then (b.appendOk && TAB !in src && TAB !in tgt) || Gone(st.rows, src)
                 else if b.untombstoneOk then src in st.rows ==> !st.rows[src].tombstone
                 else Gone(st.rows, src)
  {
    if b.recordOk {
      RecordedMerge(st, src, vr, vec, tgt, b, at);
    } else {
      UnrecordedMerge(st, src, vr, vec, tgt, b, at);
    }
  }

  // ---------------------------------------------------------------- reconcile and unmerge

  /** The follower has no rows beyond the leader's. */
  ghost predicate NothingMore(st: Store) {
    FollowerRows(st).Keys <= st.rows.Keys
  }

  lemma InStepMeans(st: Store)
    requires InStep(st)
    ensures Convergence.SameLive(st.rows, FollowerRows(st))
    ensures NothingMore(st) <==> Convergence.Converged(st.rows, FollowerRows(st))
  {
    Convergence.CoveredIsSameLive(st.rows, FollowerRows(st));
  }

  lemma WithoutRows(mine: Rows, theirs: Rows, gone: set<string>)
    requires Convergence.Covered(mine, theirs) && forall id | id in gone :: id in mine && mine[id].tombstone
    ensures Convergence.Covered(mine - gone, theirs)
    ensures theirs.Keys <= mine.Keys ==> (theirs.Keys <= (mine - gone).Keys <==> gone == {})
  {
    if gone != {} {
      var id :| id in gone;
      assert id in theirs && id !in mine - gone;
    }
  }

  /** What a reconcile does to the rows; it writes no log entry. */
  lemma ReconcileEffect(st: Store, scope: Scope, run: ReconcileRun) returns (gone: set<string>)
    ensures var (st', result) := Reconcile(st, scope, run);
            && st'.wops == st.wops && st'.rows == st.rows - gone
            && (forall id | id in gone :: id in st.rows && st.rows[id].tombstone)
            && (gone == {} <==> (result.Ok? ==> result.value == 0))
  {
    gone := if run.rowsListed && run.tombsListed then Removable(st, run) - run.locked else {};
    assert st.rows - {} == st.rows;
  }

  /** A reconcile is not logged and followers keep the rows it removes. They still have the leader's rows, and all
      of those are still all they have exactly when no row was removed. */
  lemma ReconcileInStepIff(st: Store, scope: Scope, run: ReconcileRun)
    requires InStep(st)
    ensures var (st', result) := Reconcile(st, scope, run);
            && InStep(st')
            && (NothingMore(st) ==> (NothingMore(st') <==> (result.Ok? ==> result.value == 0)))
  {
    var gone := ReconcileEffect(st, scope, run);
    WithoutRows(st.rows, FollowerRows(st), gone);
  }

  lemma LeaderUntombstones(mine: Rows, theirs: Rows, id: string)
    requires Convergence.Covered(mine, theirs)
    ensures Convergence.Covered(WithTombstone(mine, id, false), theirs) <==> (id in mine ==> !mine[id].tombstone)
  {
    if id in mine && mine[id].tombstone {
      assert !WithTombstone(mine, id, false)[id].tombstone && theirs[id].tombstone;
    }
  }

  lemma UnmergeEffect(st: Store, mergeId: nat, calls: UnmergeCalls)
    ensures var (st', result) := Unmerge(st, mergeId, calls);
            && st'.wops == st.wops
            && (result == Ok(true) ==> FindMerge(st.merges, mergeId).Some?)
            && st'.rows == if result == Ok(true)
                           then WithTombstone(st.rows, FindMerge(st.merges, mergeId).value.sourceId, false) else st.rows
  {
  }

  /** An unmerge is not logged either: it leaves the follower behind exactly when it brings a tombstoned memory
      back. */
  lemma UnmergeInStepIff(st: Store, mergeId: nat, calls: UnmergeCalls)
    requires InStep(st)
    ensures var (st', result) := Unmerge(st, mergeId, calls);
            InStep(st')
            <==> (result == Ok(true) ==>
                    && FindMerge(st.merges, mergeId).Some?
                    && var src := FindMerge(st.merges, mergeId).value.sourceId;
                       src in st.rows ==> !st.rows[src].tombstone)
  {
    UnmergeEffect(st, mergeId, calls);
    if Unmerge(st, mergeId, calls).1 == Ok(true) {
      LeaderUntombstones(st.rows, FollowerRows(st), FindMerge(st.merges, mergeId).value.sourceId);
    }
  }

  /** The row is as it was read, where a follower looks. */
  predicate Untouched(rows: Rows, m: MemoryItem) {
    m.id in rows && Convergence.ShapeOf(rows[m.id]) == Convergence.ShapeOf(m)
  }
}
