/** Exactly when a whole phase of a consolidation keeps followers in step: row by row, by the calls it makes. */
module SagaPhases {
  import opened Basics
  import opened TextFormat
  import opened Items
  import opened Saga
  import opened SagaConvergence
  import opened SagaMerge
  import Convergence
  import Replay

  // ---------------------------------------------------------------- one row

  ghost predicate Alike(mine: Rows, theirs: Rows, id: string) {
    && (id in mine ==> id in theirs && Convergence.ShapeOf(mine[id]) == Convergence.ShapeOf(theirs[id]))
    && (id in theirs && id !in mine ==> theirs[id].tombstone)
  }

  ghost predicate AlikeAt(st: Store, id: string) {
    Alike(st.rows, FollowerRows(st), id)
  }

  lemma InStepIffAlike(st: Store)
    ensures InStep(st) <==> forall id :: AlikeAt(st, id)
  {
    var theirs := FollowerRows(st);
    if forall id :: AlikeAt(st, id) {
      forall id | id in st.rows
        ensures id in theirs && Convergence.ShapeOf(st.rows[id]) == Convergence.ShapeOf(theirs[id])
      {
        assert AlikeAt(st, id);
      }
      forall id | id in theirs && id !in st.rows ensures theirs[id].tombstone {
        assert AlikeAt(st, id);
      }
    }
  }

  /** Tables that hold the same under one id. */
  ghost predicate SameAt(a: Rows, b: Rows, id: string) {
    (id in a <==> id in b) && (id in a && id in b ==> a[id] == b[id])
  }

  /** Nothing has happened to a row, at the leader and at the follower. */
  ghost predicate Left(st: Store, st': Store, id: string) {
    SameAt(st.rows, st'.rows, id) && SameAt(FollowerRows(st), FollowerRows(st'), id)
  }

  /** A step that touches one row. */
  ghost predicate Touches(st: Store, st': Store, only: string) {
    forall id | id != only :: Left(st, st', id)
  }

  lemma StillLeft(a: Store, b: Store, c: Store, only: string, id: string)
    requires Left(a, b, id) && Touches(b, c, only) && id != only
    ensures Left(a, c, id)
  {
    assert Left(b, c, id);
  }

  lemma LeftAlike(a: Store, b: Store, id: string)
    requires Left(a, b, id)
    ensures AlikeAt(a, id) <==> AlikeAt(b, id)
  {
  }

  lemma TombstoneAlike(mine: Rows, theirs: Rows, id: string, here: bool, there: bool)
    requires Alike(mine, theirs, id)
    ensures Alike(if here then WithTombstone(mine, id, true) else mine,
                  if there then WithTombstone(theirs, id, true) else theirs, id)
            <==> here == there || Gone(mine, id)
  {
  }

  // ---------------------------------------------------------------- recycle and promote

  /** What the calls made for a memory must agree on, given the row they find. */
  predicate CallsAgree(rows: Rows, m: MemoryItem, verdict: Verdict, c: UpkeepCalls) {
    match verdict
    case Recycle => c.tombstoneOk == c.appendOk || Gone(rows, m.id)
    case Promote =>
      m.tier == Short && c.putOk ==>
        && m.id in rows && LongShape(m) == LongShape(rows[m.id])
        && (!c.appendOk || TAB in m.id ==> rows[m.id].tier == Items.Long)
    case Leave => true
  }

  lemma UpkeepTouchesOne(u: Upkeep, m: MemoryItem, verdict: Verdict, c: UpkeepCalls, now: nat)
    ensures Touches(u.store, UpkeepOne(u, m, verdict, c, now).store, m.id)
  {
    if verdict == Recycle {
      RecycleEffect(u, m, c, now);
    } else if verdict == Promote && m.tier == Short {
      PromoteEffect(u, m, c, now);
    }
  }

  lemma UpkeepAlikeIff(u: Upkeep, m: MemoryItem, verdict: Verdict, c: UpkeepCalls, now: nat)
    requires AlikeAt(u.store, m.id) && !m.tombstone
    ensures AlikeAt(UpkeepOne(u, m, verdict, c, now).store, m.id) <==> CallsAgree(u.store.rows, m, verdict, c)
  {
    if verdict == Recycle {
      RecycleEffect(u, m, c, now);
      TombstoneAlike(u.store.rows, FollowerRows(u.store), m.id, c.tombstoneOk, c.appendOk);
    } else if verdict == Promote && m.tier == Short {
      PromoteEffect(u, m, c, now);
    }
  }

  lemma AgreeAlike(rows: Rows, rows': Rows, m: MemoryItem, verdict: Verdict, c: UpkeepCalls)
    requires SameAt(rows, rows', m.id)
    ensures CallsAgree(rows, m, verdict, c) <==> CallsAgree(rows', m, verdict, c)
  {
  }

  /** Rows not gone through are as before. */
  lemma {:induction false} UpkeepLeaves(st: Store, changed: seq<MemoryItem>, verdicts: seq<Verdict>,
                                        calls: seq<UpkeepCalls>, now: nat, n: nat, id: string)
    requires n <= |changed| == |verdicts| == |calls| && forall i | 0 <= i < n :: changed[i].id != id
    ensures Left(st, UpkeepPass(st, changed, verdicts, calls, now, n).store, id)
    decreases n
  {
    if n > 0 {
      var u := UpkeepPass(st, changed, verdicts, calls, now, n - 1);
      UpkeepLeaves(st, changed, verdicts, calls, now, n - 1, id);
      UpkeepTouchesOne(u, changed[n - 1], verdicts[n - 1], calls[n - 1], now);
      StillLeft(st, u.store, UpkeepPass(st, changed, verdicts, calls, now, n).store, changed[n - 1].id, id);
    }
  }

  /** The memory gone through last is alike exactly when its own calls agreed. */
  lemma UpkeepDecidesLast(st: Store, changed: seq<MemoryItem>, verdicts: seq<Verdict>, calls: seq<UpkeepCalls>,
                          now: nat, i: nat)
    requires i < |changed| == |verdicts| == |calls| && DistinctIds(changed) && AlikeAt(st, changed[i].id)
    requires !changed[i].tombstone
    ensures AlikeAt(UpkeepPass(st, changed, verdicts, calls, now, i + 1).store, changed[i].id)
            <==> CallsAgree(st.rows, changed[i], verdicts[i], calls[i])
  {
    var u := UpkeepPass(st, changed, verdicts, calls, now, i);
    UpkeepLeaves(st, changed, verdicts, calls, now, i, changed[i].id);
    LeftAlike(st, u.store, changed[i].id);
    UpkeepAlikeIff(u, changed[i], verdicts[i], calls[i], now);
    AgreeAlike(st.rows, u.store.rows, changed[i], verdicts[i], calls[i]);
  }

  /** A later step does not change that. */
  lemma UpkeepLeavesLast(st: Store, changed: seq<MemoryItem>, verdicts: seq<Verdict>, calls: seq<UpkeepCalls>,
                         now: nat, n: nat, id: string)
    requires 0 < n <= |changed| == |verdicts| == |calls| && changed[n - 1].id != id
    ensures AlikeAt(UpkeepPass(st, changed, verdicts, calls, now, n).store, id)
            <==> AlikeAt(UpkeepPass(st, changed, verdicts, calls, now, n - 1).store, id)
  {
    var u := UpkeepPass(st, changed, verdicts, calls, now, n - 1);
    UpkeepTouchesOne(u, changed[n - 1], verdicts[n - 1], calls[n - 1], now);
    LeftAlike(u.store, UpkeepPass(st, changed, verdicts, calls, now, n).store, id);
  }

  lemma {:induction false} UpkeepDecides(st: Store, changed: seq<MemoryItem>, verdicts: seq<Verdict>,
                                         calls: seq<UpkeepCalls>, now: nat, n: nat, i: nat)
    requires i < n <= |changed| == |verdicts| == |calls| && DistinctIds(changed) && AlikeAt(st, changed[i].id)
    requires !changed[i].tombstone
    ensures AlikeAt(UpkeepPass(st, changed, verdicts, calls, now, n).store, changed[i].id)
            <==> CallsAgree(st.rows, changed[i], verdicts[i], calls[i])
    decreases n
  {
    if i < n - 1 {
      UpkeepDecides(st, changed, verdicts, calls, now, n - 1, i);
      UpkeepLeavesLast(st, changed, verdicts, calls, now, n, changed[i].id);
    } else {
      UpkeepDecidesLast(st, changed, verdicts, calls, now, i);
    }
  }

  /** The recycle and promote phase leaves a follower in step exactly when, for each memory, the calls made for
      it agreed. */
  lemma UpkeepPassInStepIff(st: Store, changed: seq<MemoryItem>, verdicts: seq<Verdict>, calls: seq<UpkeepCalls>,
                            now: nat)
    requires |changed| == |verdicts| == |calls| && Snapshot(changed) && InStep(st)
    ensures InStep(UpkeepPass(st, changed, verdicts, calls, now, |changed|).store)
            <==> forall i | 0 <= i < |changed| :: CallsAgree(st.rows, changed[i], verdicts[i], calls[i])
  {
    var st' := UpkeepPass(st, changed, verdicts, calls, now, |changed|).store;
    InStepIffAlike(st);
    InStepIffAlike(st');
    forall i | 0 <= i < |changed|
      ensures AlikeAt(st', changed[i].id) <==> CallsAgree(st.rows, changed[i], verdicts[i], calls[i])
    {
      assert AlikeAt(st, changed[i].id);
      UpkeepDecides(st, changed, verdicts, calls, now, |changed|, i);
    }
    forall id | forall i | 0 <= i < |changed| :: changed[i].id != id ensures AlikeAt(st', id) {
      assert AlikeAt(st, id);
      UpkeepLeaves(st, changed, verdicts, calls, now, |changed|, id);
      LeftAlike(st, st', id);
    }
  }

  // ---------------------------------------------------------------- merge

  /** What the calls of a merge attempt must agree on. */
  predicate AttemptAgrees(rows: Rows, src: string, tgt: string, b: Backend) {
    if b.recordOk then (b.appendOk && TAB !in src && TAB !in tgt) || Gone(rows, src)
    else if b.untombstoneOk then src in rows ==> !rows[src].tombstone
    else Gone(rows, src)
  }

  lemma MergeAlikeIff(st: Store, src: string, vr: nat, vec: Vector, tgt: string, b: Backend, at: nat)
    requires AlikeAt(st, src)
    ensures AlikeAt(MergeInto(st, src, vr, vec, tgt, b, at).0, src) <==> AttemptAgrees(st.rows, src, tgt, b)
  {
    MergeEffect(st, src, vr, vec, tgt, b, at);
    TombstoneAlike(st.rows, FollowerRows(st), src, true, b.recordOk && b.appendOk && TAB !in src && TAB !in tgt);
  }

  lemma MergeTouchesOne(st: Store, src: string, vr: nat, vec: Vector, tgt: string, b: Backend, at: nat)
    ensures Touches(st, MergeInto(st, src, vr, vec, tgt, b, at).0, src)
  {
    MergeEffect(st, src, vr, vec, tgt, b, at);
  }

  lemma SourceTouchesOne(p: Pass, src: MemoryItem, run: SourceRun, index: map<nat, MemoryItem>, at: nat)
    ensures Touches(p.store, MergeSource(p, src, run, index, at).store, src.id)
  {
    AttemptIsAll(p, src, run, index, at);
    var h := AttemptOf(p, src, run, index);
    if h.Some? {
      MergeTouchesOne(p.store, src.id, Ref(src).value, p.store.vectors[Ref(src).value], index[h.value.vecId].id,
                      h.value.backend, at);
    }
  }

  /** The attempt that source `i` makes in the pass, if any, agrees on row and log. */
  predicate SourceAgrees(st: Store, changed: seq<MemoryItem>, runs: seq<SourceRun>, index: map<nat, MemoryItem>,
                         at: nat, i: nat)
    requires i < |changed| == |runs|
  {
    var h := AttemptOf(MergePass(st, changed, runs, index, at, i), changed[i], runs[i], index);
    h.Some? && h.value.vecId in index ==>
      AttemptAgrees(st.rows, changed[i].id, index[h.value.vecId].id, h.value.backend)
  }

  lemma {:induction false} MergeLeaves(st: Store, changed: seq<MemoryItem>, runs: seq<SourceRun>,
                                       index: map<nat, MemoryItem>, at: nat, n: nat, id: string)
    requires n <= |changed| == |runs| && forall i | 0 <= i < n :: changed[i].id != id
    ensures Left(st, MergePass(st, changed, runs, index, at, n).store, id)
    decreases n
  {
    if n > 0 {
      var p := MergePass(st, changed, runs, index, at, n - 1);
      MergeLeaves(st, changed, runs, index, at, n - 1, id);
      SourceTouchesOne(p, changed[n - 1], runs[n - 1], index, at);
      StillLeft(st, p.store, MergePass(st, changed, runs, index, at, n).store, changed[n - 1].id, id);
    }
  }

  lemma SourceAlikeIff(p: Pass, src: MemoryItem, run: SourceRun, index: map<nat, MemoryItem>, at: nat)
    requires AlikeAt(p.store, src.id)
    ensures var h := AttemptOf(p, src, run, index);
            AlikeAt(MergeSource(p, src, run, index, at).store, src.id)
            <==> (h.Some? && h.value.vecId in index ==>
                    AttemptAgrees(p.store.rows, src.id, index[h.value.vecId].id, h.value.backend))
  {
    AttemptIsAll(p, src, run, index, at);
    var h := AttemptOf(p, src, run, index);
    if h.Some? {
      MergeAlikeIff(p.store, src.id, Ref(src).value, p.store.vectors[Ref(src).value], index[h.value.vecId].id,
                    h.value.backend, at);
    }
  }

  lemma AttemptAlike(rows: Rows, rows': Rows, src: string, tgt: string, b: Backend)
    requires SameAt(rows, rows', src)
    ensures AttemptAgrees(rows, src, tgt, b) <==> AttemptAgrees(rows', src, tgt, b)
  {
  }

  lemma {:induction false} MergeDecides(st: Store, changed: seq<MemoryItem>, runs: seq<SourceRun>,
                                        index: map<nat, MemoryItem>, at: nat, n: nat, i: nat)
    requires i < n <= |changed| == |runs| && DistinctIds(changed) && AlikeAt(st, changed[i].id)
    ensures AlikeAt(MergePass(st, changed, runs, index, at, n).store, changed[i].id)
            <==> SourceAgrees(st, changed, runs, index, at, i)
    decreases n
  {
    var p := MergePass(st, changed, runs, index, at, n - 1);
    var src := changed[n - 1];
    if i < n - 1 {
      MergeDecides(st, changed, runs, index, at, n - 1, i);
      SourceTouchesOne(p, src, runs[n - 1], index, at);
      LeftAlike(p.store, MergePass(st, changed, runs, index, at, n).store, changed[i].id);
    } else {
      MergeLeaves(st, changed, runs, index, at, n - 1, src.id);
      LeftAlike(st, p.store, src.id);
      SourceAlikeIff(p, src, runs[i], index, at);
      var h := AttemptOf(p, src, runs[i], index);
      if h.Some? && h.value.vecId in index {
        AttemptAlike(st.rows, p.store.rows, src.id, index[h.value.vecId].id, h.value.backend);
      }
    }
  }

  /** The merge phase leaves a follower in step exactly when every attempt it makes agrees: recorded and logged
      under ids without tabs, or not recorded and undone. Failed deletions of vectors do not matter. */
  lemma MergePassInStepIff(st: Store, changed: seq<MemoryItem>, runs: seq<SourceRun>, index: map<nat, MemoryItem>,
                           at: nat)
    requires |changed| == |runs| && DistinctIds(changed) && InStep(st)
    ensures InStep(MergePass(st, changed, runs, index, at, |changed|).store)
            <==> forall i: nat | i < |changed| :: SourceAgrees(st, changed, runs, index, at, i)
  {
    var st' := MergePass(st, changed, runs, index, at, |changed|).store;
    InStepIffAlike(st);
    InStepIffAlike(st');
    forall i: nat | i < |changed|
      ensures AlikeAt(st', changed[i].id) <==> SourceAgrees(st, changed, runs, index, at, i)
    {
      assert AlikeAt(st, changed[i].id);
      MergeDecides(st, changed, runs, index, at, |changed|, i);
    }
    forall id | forall i | 0 <= i < |changed| :: changed[i].id != id ensures AlikeAt(st', id) {
      assert AlikeAt(st, id);
      MergeLeaves(st, changed, runs, index, at, |changed|, id);
      LeftAlike(st, st', id);
    }
  }

  // ---------------------------------------------------------------- late extraction

  lemma ReextractEffect(x: Reextract, m: MemoryItem, run: ExtractRun, now: nat)
    ensures var st' := ReextractOne(x, m, run, now).store;
            if !Rewrites(m, run) then st' == x.store
            else
              var item := WithEntities(m, run.entities.value);
              && st'.rows == Put(x.store.rows, item)
              && FollowerRows(st') == (if run.appendOk then Put(FollowerRows(x.store), item) else FollowerRows(x.store))
  {
    var st' := ReextractOne(x, m, run, now).store;
    if Rewrites(m, run) && run.appendOk {
      var e := WopEntry(x.store.lastSeq + 1, "reextract", Bare(WithEntities(m, run.entities.value)), now);
      FollowerAfter(x.store, st', e);
      assert Replay.CommitRef(e).None?;
    }
  }

  lemma ReextractTouchesOne(x: Reextract, m: MemoryItem, run: ExtractRun, now: nat)
    ensures Touches(x.store, ReextractOne(x, m, run, now).store, m.id)
  {
    ReextractEffect(x, m, run, now);
  }

  /** A memory that was rewritten was logged, or is still as it was read. */
  predicate RewriteAgrees(rows: Rows, m: MemoryItem, run: ExtractRun) {
    Rewrites(m, run) && !run.appendOk ==> Untouched(rows, m)
  }

  lemma ReextractAlikeIff(x: Reextract, m: MemoryItem, run: ExtractRun, now: nat)
    requires AlikeAt(x.store, m.id) && !m.tombstone
    ensures AlikeAt(ReextractOne(x, m, run, now).store, m.id) <==> RewriteAgrees(x.store.rows, m, run)
  {
    ReextractEffect(x, m, run, now);
  }

  lemma {:induction false} ReextractLeaves(st: Store, changed: seq<MemoryItem>, runs: seq<ExtractRun>, now: nat,
                                           n: nat, id: string)
    requires n <= |changed| == |runs| && forall i | 0 <= i < n :: changed[i].id != id
    ensures Left(st, ReextractPass(st, changed, runs, now, n).store, id)
    decreases n
  {
    if n > 0 {
      var x := ReextractPass(st, changed, runs, now, n - 1);
      ReextractLeaves(st, changed, runs, now, n - 1, id);
      ReextractTouchesOne(x, changed[n - 1], runs[n - 1], now);
      StillLeft(st, x.store, ReextractPass(st, changed, runs, now, n).store, changed[n - 1].id, id);
    }
  }

  lemma {:induction false} ReextractDecides(st: Store, changed: seq<MemoryItem>, runs: seq<ExtractRun>, now: nat,
                                            n: nat, i: nat)
    requires i < n <= |changed| == |runs| && DistinctIds(changed) && AlikeAt(st, changed[i].id)
    requires !changed[i].tombstone
    ensures AlikeAt(ReextractPass(st, changed, runs, now, n).store, changed[i].id)
            <==> RewriteAgrees(st.rows, changed[i], runs[i])
    decreases n
  {
    var x := ReextractPass(st, changed, runs, now, n - 1);
    if i < n - 1 {
      ReextractDecides(st, changed, runs, now, n - 1, i);
      ReextractTouchesOne(x, changed[n - 1], runs[n - 1], now);
      LeftAlike(x.store, ReextractPass(st, changed, runs, now, n).store, changed[i].id);
    } else {
      ReextractLeaves(st, changed, runs, now, n - 1, changed[i].id);
      LeftAlike(st, x.store, changed[i].id);
      ReextractAlikeIff(x, changed[i], runs[i], now);
    }
  }

  /** Late extraction leaves a follower in step exactly when every memory it rewrote was logged or is still as
      it was read. */
  lemma ReextractPassInStepIff(st: Store, changed: seq<MemoryItem>, runs: seq<ExtractRun>, now: nat)
    requires |changed| == |runs| && Snapshot(changed) && InStep(st)
    ensures InStep(ReextractPass(st, changed, runs, now, |changed|).store)
            <==> forall i | 0 <= i < |changed| :: RewriteAgrees(st.rows, changed[i], runs[i])
  {
    var st' := ReextractPass(st, changed, runs, now, |changed|).store;
    InStepIffAlike(st);
    InStepIffAlike(st');
    forall i | 0 <= i < |changed|
      ensures AlikeAt(st', changed[i].id) <==> RewriteAgrees(st.rows, changed[i], runs[i])
    {
      assert AlikeAt(st, changed[i].id);
      ReextractDecides(st, changed, runs, now, |changed|, i);
    }
    forall id | forall i | 0 <= i < |changed| :: changed[i].id != id ensures AlikeAt(st', id) {
      assert AlikeAt(st, id);
      ReextractLeaves(st, changed, runs, now, |changed|, id);
      LeftAlike(st, st', id);
    }
  }

  // ---------------------------------------------------------------- rows that only the follower has

  /** No phase removes a row at the leader, and a follower only adds rows that the leader has. */
  ghost predicate KeepsNothingMore(st: Store, st': Store) {
    NothingMore(st) ==> NothingMore(st')
  }

  lemma TendKeepsNothingMore(u: Upkeep, m: MemoryItem, verdict: Verdict, c: UpkeepCalls, now: nat)
    ensures KeepsNothingMore(u.store, UpkeepOne(u, m, verdict, c, now).store)
  {
    if verdict == Recycle {
      RecycleEffect(u, m, c, now);
    } else if verdict == Promote && m.tier == Short {
      PromoteEffect(u, m, c, now);
    }
  }

  lemma {:induction false} UpkeepKeepsNothingMore(st: Store, changed: seq<MemoryItem>, verdicts: seq<Verdict>,
                                                  calls: seq<UpkeepCalls>, now: nat, n: nat)
    requires n <= |changed| == |verdicts| == |calls|
    ensures KeepsNothingMore(st, UpkeepPass(st, changed, verdicts, calls, now, n).store)
    decreases n
  {
    if n > 0 {
      UpkeepKeepsNothingMore(st, changed, verdicts, calls, now, n - 1);
      TendKeepsNothingMore(UpkeepPass(st, changed, verdicts, calls, now, n - 1), changed[n - 1], verdicts[n - 1],
                           calls[n - 1], now);
    }
  }

  lemma SourceKeepsNothingMore(p: Pass, src: MemoryItem, run: SourceRun, index: map<nat, MemoryItem>, at: nat)
    ensures KeepsNothingMore(p.store, MergeSource(p, src, run, index, at).store)
  {
    AttemptIsAll(p, src, run, index, at);
    var h := AttemptOf(p, src, run, index);
    if h.Some? {
      MergeEffect(p.store, src.id, Ref(src).value, p.store.vectors[Ref(src).value], index[h.value.vecId].id,
                  h.value.backend, at);
    }
  }

  lemma {:induction false} MergeKeepsNothingMore(st: Store, changed: seq<MemoryItem>, runs: seq<SourceRun>,
                                                 index: map<nat, MemoryItem>, at: nat, n: nat)
    requires n <= |changed| == |runs|
    ensures KeepsNothingMore(st, MergePass(st, changed, runs, index, at, n).store)
    decreases n
  {
    if n > 0 {
      MergeKeepsNothingMore(st, changed, runs, index, at, n - 1);
      SourceKeepsNothingMore(MergePass(st, changed, runs, index, at, n - 1), changed[n - 1], runs[n - 1], index, at);
    }
  }

  lemma {:induction false} ReextractKeepsNothingMore(st: Store, changed: seq<MemoryItem>, runs: seq<ExtractRun>,
                                                     now: nat, n: nat)
    requires n <= |changed| == |runs|
    ensures KeepsNothingMore(st, ReextractPass(st, changed, runs, now, n).store)
    decreases n
  {
    if n > 0 {
      ReextractKeepsNothingMore(st, changed, runs, now, n - 1);
      ReextractEffect(ReextractPass(st, changed, runs, now, n - 1), changed[n - 1], runs[n - 1], now);
    }
  }
}
