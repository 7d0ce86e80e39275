/** The engine's cross-store operations as they run: loops over turns, changed memories, search hits, stored
    vectors and tombstoned rows, writing two stores in place. */
module Engine {
  import opened Basics
  import opened TextFormat
  import opened Items
  import opened Saga
  import Namespace

  lemma RefsOfAdd(rows: Rows, ids: set<string>, id: string)
    requires id in rows && Ref(rows[id]).Some?
    ensures RefsOf(rows, ids + {id}) == RefsOf(rows, ids) + {Ref(rows[id]).value}
  {
  }

  lemma MinusStep<K, V>(m: map<K, V>, gone: set<K>, k: K)
    ensures m - gone - {k} == m - (gone + {k})
  {
  }

  lemma TodoStep(removable: set<string>, done: set<string>, todo: set<string>, id: string)
    requires removable == done + todo * removable && id in todo
    ensures id in removable ==> removable == (done + {id}) + (todo - {id}) * removable
    ensures id !in removable ==> removable == done + (todo - {id}) * removable
  {
  }

  lemma CountsAdd(done: set<string>, id: string, locked: set<string>)
    requires id !in done
    ensures id in locked ==> (done + {id}) - locked == done - locked && |(done + {id}) * locked| == |done * locked| + 1
    ensures id !in locked ==> (done + {id}) * locked == done * locked
    ensures id !in locked ==> (done + {id}) - locked == (done - locked) + {id}
    ensures id !in locked ==> |(done + {id}) - locked| == |done - locked| + 1
  {
    if id in locked {
      assert (done + {id}) * locked == done * locked + {id};
      assert (done + {id}) - locked == done - locked;
    } else {
      assert (done + {id}) * locked == done * locked;
      assert (done + {id}) - locked == (done - locked) + {id};
    }
  }

  /** The clean-up of tombstoned rows half way: `done` are dealt with, `todo` are still to be looked at. */
  ghost predicate Halfway(st: Store, run: ReconcileRun, done: set<string>, todo: set<string>, rows: Rows,
                          vectors: Vectors, removed: nat, failed: nat) {
    && Removable(st, run) == done + todo * Removable(st, run) && done !! todo
    && rows == st.rows - (done - run.locked) && vectors == st.vectors - RefsOf(st.rows, done)
    && removed == |done - run.locked| && failed == |done * run.locked|
  }

  lemma HalfwayStart(st: Store, run: ReconcileRun, todo: set<string>)
    requires todo == set id | id in st.rows && st.rows[id].tombstone
    ensures Halfway(st, run, {}, todo, st.rows, st.vectors, 0, 0)
  {
  }

  lemma HalfwayEnd(st: Store, run: ReconcileRun, done: set<string>, rows: Rows, vectors: Vectors, removed: nat,
                   failed: nat)
    requires Halfway(st, run, done, {}, rows, vectors, removed, failed)
    ensures var removable := Removable(st, run);
            && vectors == st.vectors - RefsOf(st.rows, removable) && rows == st.rows - (removable - run.locked)
            && removed == |removable - run.locked| && failed == |removable * run.locked|
  {
  }

  lemma HalfwaySkip(st: Store, run: ReconcileRun, done: set<string>, todo: set<string>, rows: Rows,
                    vectors: Vectors, removed: nat, failed: nat, id: string)
    requires Halfway(st, run, done, todo, rows, vectors, removed, failed) && id in todo && id !in Removable(st, run)
    ensures Halfway(st, run, done, todo - {id}, rows, vectors, removed, failed)
  {
  }

  lemma HalfwayStep(st: Store, run: ReconcileRun, done: set<string>, todo: set<string>, rows: Rows,
                    vectors: Vectors, removed: nat, failed: nat, id: string)
    requires Halfway(st, run, done, todo, rows, vectors, removed, failed) && id in todo && id in Removable(st, run)
    ensures var vectors' := vectors - {Ref(st.rows[id]).value};
            if id in run.locked then Halfway(st, run, done + {id}, todo - {id}, rows, vectors', removed, failed + 1)
            else Halfway(st, run, done + {id}, todo - {id}, rows - {id}, vectors', removed + 1, failed)
  {
    TodoStep(Removable(st, run), done, todo, id);
    RefsOfAdd(st.rows, done, id);
    MinusStep(st.vectors, RefsOf(st.rows, done), Ref(st.rows[id]).value);
    MinusStep(st.rows, done - run.locked, id);
    CountsAdd(done, id, run.locked);
  }

  predicate Oldest(rows: Rows, ids: set<string>, id: string)
    requires ids <= rows.Keys && id in ids
  {
    forall other | other in ids :: rows[id].created <= rows[other].created
  }

  lemma {:induction false} OldestOf(rows: Rows, ids: set<string>)
    requires ids <= rows.Keys && ids != {}
    ensures exists id | id in ids :: Oldest(rows, ids, id)
  {
    var id :| id in ids;
    if ids != {id} {
      OldestOf(rows, ids - {id});
      var next :| next in ids - {id} && Oldest(rows, ids - {id}, next);
      assert Oldest(rows, ids, if rows[id].created <= rows[next].created then id else next);
    } else {
      assert Oldest(rows, ids, id);
    }
  }

  predicate OldestFirst(all: seq<MemoryItem>) {
    forall i, j | 0 <= i < j < |all| :: all[i].created <= all[j].created
  }

  /** The row is in scope and not among those still to be looked at. */
  ghost predicate InList(rows: Rows, scope: Scope, todo: set<string>, m: MemoryItem) {
    exists id :: id in rows && id !in todo && rows[id] == m && Sees(scope, m)
  }

  /** The listing half way through the rows. */
  ghost predicate ListedBut(rows: Rows, scope: Scope, todo: set<string>, all: seq<MemoryItem>) {
    && todo <= rows.Keys && OldestFirst(all)
    && (forall m :: m in all <==> InList(rows, scope, todo, m))
    && (forall m, id | m in all && id in todo :: m.created <= rows[id].created)
  }

  lemma InListStep(rows: Rows, scope: Scope, todo: set<string>, id: string, m: MemoryItem)
    requires id in todo && todo <= rows.Keys
    ensures InList(rows, scope, todo - {id}, m) <==> InList(rows, scope, todo, m) || (m == rows[id] && Sees(scope, m))
  {
    if InList(rows, scope, todo - {id}, m) {
      var other :| other in rows && other !in todo - {id} && rows[other] == m && Sees(scope, m);
      assert other == id || other !in todo;
    }
    if InList(rows, scope, todo, m) {
      var other :| other in rows && other !in todo && rows[other] == m && Sees(scope, m);
      assert other !in todo - {id};
    }
    assert id !in todo - {id};
  }

  lemma ListStep(rows: Rows, scope: Scope, todo: set<string>, all: seq<MemoryItem>, id: string)
    requires ListedBut(rows, scope, todo, all) && id in todo && Oldest(rows, todo, id)
    ensures ListedBut(rows, scope, todo - {id}, if Sees(scope, rows[id]) then all + [rows[id]] else all)
  {
    forall m
      ensures InList(rows, scope, todo - {id}, m) <==> InList(rows, scope, todo, m) || (m == rows[id] && Sees(scope, m))
    {
      InListStep(rows, scope, todo, id, m);
    }
  }

  /** The rows in scope that are not still to be looked at. */
  ghost function Shown(rows: Rows, scope: Scope, todo: set<string>): set<string> {
    set id | id in rows && id !in todo && Sees(scope, rows[id])
  }

  lemma ShownStep(rows: Rows, scope: Scope, todo: set<string>, id: string)
    requires id in todo && id in rows
    ensures |Shown(rows, scope, todo - {id})| == |Shown(rows, scope, todo)| + if Sees(scope, rows[id]) then 1 else 0
  {
    if Sees(scope, rows[id]) {
      assert Shown(rows, scope, todo - {id}) == Shown(rows, scope, todo) + {id};
    } else {
      assert Shown(rows, scope, todo - {id}) == Shown(rows, scope, todo);
    }
  }

  class MemoryEngine {
    const tenant: string
    var rows: Rows
    var vectors: Vectors
    var merges: seq<MergeRow>
    var nextMergeId: nat
    var wops: seq<WopEntry>
    var lastSeq: nat

    ghost function State(): Store
      reads this
    {
      Store(rows, vectors, merges, nextMergeId, wops, lastSeq)
    }

    constructor (tenant: string)
      ensures State() == Store(map[], map[], [], 0, [], 0) && this.tenant == tenant
    {
      this.tenant := tenant;
      rows, vectors, merges, nextMergeId, wops, lastSeq := map[], map[], [], 0, [], 0;
    }

    method Append(op: string, payload: Payload, at: nat)
      modifies this`wops, this`lastSeq
      ensures State() == AppendWop(old(State()), op, payload, at)
    {
      lastSeq := lastSeq + 1;
      wops := wops + [WopEntry(lastSeq, op, payload, at)];
    }

    /** Stores the turns of an interaction, skipping those that fail. */
    method CommitInner(x: Interaction, turns: seq<Turn>, runs: seq<TurnRun>, now: nat)
      returns (ids: seq<string>, failed: seq<TurnFailure>)
      requires |turns| == |runs|
      modifies this
      ensures CommitResult(State(), ids, failed) == CommitTurns(old(State()), x, turns, runs, now, |turns|)
    {
      ids, failed := [], [];
      for i := 0 to |turns|
        invariant CommitResult(State(), ids, failed) == CommitTurns(old(State()), x, turns, runs, now, i)
      {
        var turn, run := turns[i], runs[i];
        if run.embedding.None? {
          failed := failed + [TurnFailure(turn.turnIdx, "embed")];
          continue;
        }
        if !run.insertOk {
          failed := failed + [TurnFailure(turn.turnIdx, "insert_vector")];
          continue;
        }
        vectors := InsertVector(vectors, run.vecId, run.embedding.value);
        var item := NewItem(x, turn, run, now);
        if !run.persistOk {
          if run.cleanOk {
            vectors := vectors - {run.vecId};
          }
          failed := failed + [TurnFailure(turn.turnIdx, "persist")];
          continue;
        }
        rows := Put(rows, item);
        Append("commit", Envelope(item, run.embedding), now);
        ids := ids + [run.id];
        rows := Attach(rows, run.id, run.attached);
      }
    }

    method DeleteMemory(id: string, calls: DeleteCalls, now: nat) returns (done: bool)
      modifies this
      ensures (State(), done) == Delete(old(State()), id, calls, now)
    {
      if !calls.getOk {
        return false;
      }
      if id in rows && Ref(rows[id]).Some? {
        if !calls.vectorOk {
          return false;
        }
        vectors := vectors - {Ref(rows[id]).value};
      }
      if !calls.tombstoneOk {
        return false;
      }
      rows := WithTombstone(rows, id, true);
      if !calls.appendOk {
        return false;
      }
      Append("delete", Text(id), now);
      return true;
    }

    /** First consolidation phase: recycle and promote. */
    method UpkeepPhase(changed: seq<MemoryItem>, verdicts: seq<Verdict>, calls: seq<UpkeepCalls>, now: nat)
      returns (dropped: nat, promoted: nat, troubles: seq<Trouble>)
      requires |changed| == |verdicts| == |calls|
      modifies this
      ensures Upkeep(State(), dropped, promoted, troubles)
              == UpkeepPass(old(State()), changed, verdicts, calls, now, |changed|)
    {
      dropped, promoted, troubles := 0, 0, [];
      for i := 0 to |changed|
        invariant Upkeep(State(), dropped, promoted, troubles)
                  == UpkeepPass(old(State()), changed, verdicts, calls, now, i)
      {
        var m, c := changed[i], calls[i];
        if verdicts[i] == Recycle {
          if Ref(m).Some? {
            if c.deleteOk {
              vectors := vectors - {Ref(m).value};
            } else {
              troubles := troubles + [Trouble(m.id, "recycle")];
            }
          }
          if c.tombstoneOk {
            rows := WithTombstone(rows, m.id, true);
          } else {
            troubles := troubles + [Trouble(m.id, "recycle")];
          }
          if c.appendOk {
            Append("recycle", Text(m.id), now);
          }
          dropped := dropped + 1;
        } else if m.tier == Short && verdicts[i] == Promote {
          if c.putOk {
            rows := Put(rows, m.(tier := Long));
            if c.appendOk {
              Append("promote", Text(Join([m.id, "Long"], TAB)), now);
            }
            promoted := promoted + 1;
          } else {
            troubles := troubles + [Trouble(m.id, "promote")];
          }
        }
      }
    }

    /** The tenant's live rows that the filter shows, each once, oldest first. */
    method ListAll(filter: Namespace.Filter) returns (all: seq<MemoryItem>)
      ensures forall m :: m in all <==> Sees(Scope(tenant, filter), m) && exists id :: id in rows && rows[id] == m
      ensures |all| == |set id | id in rows && Sees(Scope(tenant, filter), rows[id])|
      ensures OldestFirst(all)
    {
      all := [];
      var todo := rows.Keys;
      while todo != {}
        invariant ListedBut(rows, Scope(tenant, filter), todo, all)
        invariant |all| == |Shown(rows, Scope(tenant, filter), todo)|
      {
        OldestOf(rows, todo);
        var id :| id in todo && Oldest(rows, todo, id);
        ListStep(rows, Scope(tenant, filter), todo, all, id);
        ShownStep(rows, Scope(tenant, filter), todo, id);
        todo := todo - {id};
        if Sees(Scope(tenant, filter), rows[id]) {
          all := all + [rows[id]];
        }
      }
      assert Shown(rows, Scope(tenant, filter), {}) == set id | id in rows && Sees(Scope(tenant, filter), rows[id]);
      forall m ensures m in all <==> Sees(Scope(tenant, filter), m) && exists id :: id in rows && rows[id] == m {
        assert m in all <==> InList(rows, Scope(tenant, filter), {}, m);
      }
    }

    method BuildIndex(all: seq<MemoryItem>) returns (index: map<nat, MemoryItem>)
      ensures index == IndexByRef(all)
    {
      index := map[];
      for i := 0 to |all|
        invariant index == IndexByRef(all[..i])
      {
        assert all[..i + 1][..i] == all[..i];
        if Ref(all[i]).Some? {
          index := index[Ref(all[i]).value := all[i]];
        }
      }
      assert all[..|all|] == all;
    }

    /** One attempt to merge, with the compensation for a merge that could not be recorded. */
    method MergeOne(src: string, vr: nat, vec: Vector, tgt: string, b: Backend, at: nat) returns (merged: bool)
      modifies this
      ensures (State(), merged) == MergeInto(old(State()), src, vr, vec, tgt, b, at)
    {
      rows := WithTombstone(rows, src, true);
      if b.deleteOk {
        vectors := vectors - {vr};
      }
      if !b.recordOk {
        if b.untombstoneOk {
          rows := WithTombstone(rows, src, false);
        }
        if b.reinsertOk {
          vectors := InsertVector(vectors, vr, vec);
        }
        return false;
      }
      merges := merges + [MergeRow(nextMergeId, MergeFact(src, tgt, MERGE_REASON, at))];
      nextMergeId := nextMergeId + 1;
      if b.appendOk {
        Append("merge", Text(Join([src, tgt, MERGE_REASON, Decimal(at)], TAB)), at);
      }
      return true;
    }

    method TryAllHits(src: MemoryItem, vr: nat, vec: Vector, hits: seq<Hit>, index: map<nat, MemoryItem>, at: nat)
      returns (merged: bool, troubles: seq<Trouble>)
      modifies this
      ensures (State(), merged, troubles) == TryHits(old(State()), src, vr, vec, hits, index, at)
    {
      merged, troubles := false, [];
      var i := 0;
      assert hits[0..] == hits;
      while i < |hits|
        invariant 0 <= i <= |hits| && !merged && State() == old(State())
        invariant var rest := TryHits(State(), src, vr, vec, hits[i..], index, at);
                  var whole := TryHits(old(State()), src, vr, vec, hits, index, at);
                  rest.0 == whole.0 && rest.1 == whole.1 && troubles + rest.2 == whole.2
      {
        var hit := hits[i];
        assert hits[i..][0] == hit && hits[i..][1..] == hits[i + 1..];
        if Eligible(src, vr, hit, index) {
          if hit.backend.tombstoneOk {
            merged := MergeOne(src.id, vr, vec, index[hit.vecId].id, hit.backend, at);
            troubles := troubles + if merged then [] else [Trouble(src.id, "merge-log")];
            return;
          }
          troubles := troubles + [Trouble(src.id, "merge")];
        }
        i := i + 1;
      }
      assert hits[i..] == [] && troubles + [] == troubles;
    }

    /** Second phase: merges each changed semantic memory into at most one near neighbour. `all` is `None` when the
        rows in scope cannot be listed, which ends the phase. */
    method ConsolidateMerge(changed: seq<MemoryItem>, runs: seq<SourceRun>, all: Option<seq<MemoryItem>>, at: nat)
      returns (merged: nat, troubles: seq<Trouble>, aborted: bool)
      requires |changed| == |runs|
      modifies this
      ensures Pass(State(), merged, troubles, aborted)
              == if all.None? then Pass(old(State()), 0, [], true)
                 else MergePass(old(State()), changed, runs, IndexByRef(all.value), at, |changed|)
    {
      merged, troubles, aborted := 0, [], false;
      if all.None? {
        return 0, [], true;
      }
      var index := BuildIndex(all.value);
      for i := 0 to |changed|
        invariant Pass(State(), merged, troubles, aborted) == MergePass(old(State()), changed, runs, index, at, i)
      {
        var src, run := changed[i], runs[i];
        if aborted || !IsSource(src, run, vectors) {
          continue;
        }
        if run.hits.None? {
          aborted := true;
          continue;
        }
        var vr := Ref(src).value;
        var done, more := TryAllHits(src, vr, vectors[vr], Present(run.hits.value, vectors), index, at);
        merged := if done then merged + 1 else merged;
        troubles := troubles + more;
      }
    }

    /** Last write-back: entities that were still missing, onto the rows as the first phase read them. */
    method ReextractPhase(changed: seq<MemoryItem>, runs: seq<ExtractRun>, now: nat)
      returns (count: nat, troubles: seq<Trouble>)
      requires |changed| == |runs|
      modifies this
      ensures Reextract(State(), count, troubles) == ReextractPass(old(State()), changed, runs, now, |changed|)
    {
      count, troubles := 0, [];
      for i := 0 to |changed|
        invariant Reextract(State(), count, troubles) == ReextractPass(old(State()), changed, runs, now, i)
      {
        var m, run := changed[i], runs[i];
        if m.entitiesPending && run.entities.Some? {
          var item := m.(entities := run.entities.value, entitiesPending := false);
          if run.putOk {
            rows := Put(rows, item);
            if run.appendOk {
              Append("reextract", Bare(item), now);
            }
            count := count + 1;
          } else {
            troubles := troubles + [Trouble(m.id, "reextract")];
          }
        }
      }
    }

    /** The references of the live rows in scope. */
    method CollectRefs(filter: Namespace.Filter) returns (refs: set<nat>)
      ensures refs == LiveRefs(rows, Scope(tenant, filter))
    {
      refs := {};
      var todo := rows.Keys;
      while todo != {}
        invariant todo <= rows.Keys
        invariant refs == set id | id in rows.Keys - todo && Sees(Scope(tenant, filter), rows[id])
                                   && Ref(rows[id]).Some? :: Ref(rows[id]).value
      {
        var id :| id in todo;
        todo := todo - {id};
        if Sees(Scope(tenant, filter), rows[id]) && Ref(rows[id]).Some? {
          refs := refs + {Ref(rows[id]).value};
        }
      }
    }

    /** Reverse check: removes stored vectors that no live row refers to. */
    method CleanOrphans(filter: Namespace.Filter, refs: set<nat>, run: ReconcileRun)
      requires refs == LiveRefs(rows, Scope(tenant, filter))
      modifies this`vectors
      ensures State() == old(State()).(vectors := old(vectors) - Orphans(old(State()), Scope(tenant, filter), run))
    {
      var todo := if run.vectorsListed then vectors.Keys else {};
      ghost var gone: set<nat> := {};
      while todo != {}
        invariant todo <= old(vectors).Keys
        invariant vectors == old(vectors) - gone
        invariant gone == (if run.vectorsListed then old(vectors).Keys - todo - refs - run.stuck else {})
      {
        var v :| v in todo;
        todo := todo - {v};
        if v !in refs && v !in run.stuck {
          vectors := vectors - {v};
          gone := gone + {v};
        }
      }
    }

    /** Vector first, then row; the row stays when its removal fails. */
    method RemoveRow(id: string, ref: nat, locked: set<string>) returns (ok: bool)
      modifies this`rows, this`vectors
      ensures vectors == old(vectors) - {ref} && rows == (if id in locked then old(rows) else old(rows) - {id})
      ensures ok == (id !in locked)
    {
      vectors := vectors - {ref};
      ok := id !in locked;
      if ok {
        rows := rows - {id};
      }
    }

    /** Looks at one tombstoned row, which `st` is the state before the clean-up has. */
    method RemoveOne(id: string, tomb: MemoryItem, kept: set<string>, run: ReconcileRun, removed: nat, failed: nat,
                     ghost st: Store, ghost done: set<string>, ghost todo: set<string>)
      returns (removed': nat, failed': nat, ghost done': set<string>)
      requires Halfway(st, run, done, todo, rows, vectors, removed, failed) && id in todo
      requires id in st.rows && st.rows[id] == tomb && tomb.tombstone
      requires kept == if run.mergesListed then Sources(st.merges) else {}
      modifies this`rows, this`vectors
      ensures Halfway(st, run, done', todo - {id}, rows, vectors, removed', failed')
    {
      removed', failed', done' := removed, failed, done;
      var ref := Ref(tomb);
      if id !in kept && ref.Some? && ref.value !in run.stuck {
        HalfwayStep(st, run, done, todo, rows, vectors, removed, failed, id);
        var ok := RemoveRow(id, ref.value, run.locked);
        if ok {
          removed' := removed + 1;
        } else {
          failed' := failed + 1;
        }
        done' := done + {id};
      } else {
        HalfwaySkip(st, run, done, todo, rows, vectors, removed, failed, id);
      }
    }

    /** Removes tombstoned rows that are no merge sources, unless they cannot be listed; `failed` counts the rows
        that could not be removed. */
    method RemoveTombstoned(run: ReconcileRun) returns (result: Result<nat, string>, failed: nat)
      modifies this`rows, this`vectors
      ensures var st := old(State());
              var removable := Removable(st, run);
              if run.tombsListed then
                && State() == st.(vectors := st.vectors - RefsOf(st.rows, removable),
                                  rows := st.rows - (removable - run.locked))
                && result == Ok(|removable - run.locked|) && failed == |removable * run.locked|
              else State() == st && result == Err("list_tombstoned") && failed == 0
    {
      var kept := if run.mergesListed then Sources(merges) else {};
      if !run.tombsListed {
        return Err("list_tombstoned"), 0;
      }
      var removed := 0;
      failed := 0;
      var tombs := map id | id in rows && rows[id].tombstone :: rows[id];
      var todo := tombs.Keys;
      ghost var st := State();
      ghost var done: set<string> := {};
      HalfwayStart(st, run, todo);
      while todo != {}
        invariant todo <= tombs.Keys
        invariant Halfway(st, run, done, todo, rows, vectors, removed, failed)
      {
        var id :| id in todo;
        removed, failed, done := RemoveOne(id, tombs[id], kept, run, removed, failed, st, done, todo);
        todo := todo - {id};
      }
      HalfwayEnd(st, run, done, rows, vectors, removed, failed);
      result := Ok(removed);
    }

    method ConsolidateReconcile(filter: Namespace.Filter, run: ReconcileRun)
      returns (result: Result<nat, string>, failed: nat)
      modifies this
      ensures (State(), result) == Reconcile(old(State()), Scope(tenant, filter), run)
      ensures failed == if result.Ok? then |Removable(old(State()), run) * run.locked| else 0
    {
      if !run.rowsListed {
        return Err("list_all"), 0;
      }
      var refs := CollectRefs(filter);
      ghost var st := State();
      CleanOrphans(filter, refs, run);
      assert Removable(State(), run) == Removable(st, run);
      result, failed := RemoveTombstoned(run);
    }

    method UnmergeOne(mergeId: nat, calls: UnmergeCalls) returns (result: Result<bool, string>)
      modifies this
      ensures (State(), result) == Unmerge(old(State()), mergeId, calls)
    {
      var found := FindMerge(merges, mergeId);
      if found.None? {
        return Ok(false);
      }
      merges := WithoutMerge(merges, mergeId);
      var src := found.value.sourceId;
      if !calls.rowOk {
        return Err("get");
      }
      if src !in rows {
        return Ok(false);
      }
      var item := rows[src].(tombstone := false);
      var ref := Ref(item);
      if ref.Some? {
        if !calls.vectorOk {
          return Err("vector");
        }
        if ref.value !in vectors {
          if calls.embedding.None? {
            return Err("embed");
          }
          if !calls.insertOk {
            return Err("insert");
          }
          vectors := InsertVector(vectors, ref.value, calls.embedding.value);
        }
      }
      if !calls.putOk {
        return Err("put");
      }
      rows := rows[src := item];
      return Ok(true);
    }
  }
}
