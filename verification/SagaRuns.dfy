/**
 Whole runs of the engine: commits, deletes, reconciles and unmerges, and consolidations that go through the
 memories they read at their start one by one, with anything else happening in between and any call failing.
 Merges stay reversible, and a memory that waits for its entities has none.
 */
module SagaRuns {
  import opened Basics
  import opened TextFormat
  import opened Items
  import opened Saga
  import opened SagaMerge
  import opened SagaReconcile

  /** What a consolidation is at: recycling and promoting, merging, or extracting late. */
  datatype Stage = Idle | Tending | Merging | Extracting

  /** `changed` is what the consolidation under way read at its start, `next` is the memory it comes to next. */
  datatype Machine = Machine(store: Store, stage: Stage, changed: seq<MemoryItem>, next: nat)

  /** `AddRow` stores a summary or an imported memory. `MergeNext` looks its hits up in any index. `Skip` goes past a
      memory without a call, `End` ends a consolidation, early if a listing or a search fails. */
  datatype Event =
    | CommitOne(x: Interaction, turn: Turn, turnRun: TurnRun, now: nat)
    | AttachTo(id: string, entities: seq<string>, success: bool)
    | AddRow(item: MemoryItem, vecId: nat, vector: Vector)
    | DeleteOne(id: string, deleteCalls: DeleteCalls, now: nat)
    | UnmergeOne(mergeId: nat, unmergeCalls: UnmergeCalls)
    | ReconcileAll(scope: Scope, reconcileRun: ReconcileRun)
    | Begin(changed: seq<MemoryItem>)
    | TendNext(verdict: Verdict, upkeepCalls: UpkeepCalls, now: nat)
    | MergeNext(run: SourceRun, index: map<nat, MemoryItem>, at: nat)
    | ExtractNext(extractRun: ExtractRun, now: nat)
    | Skip
    | Proceed
    | End

  /** An extraction that fails answers no entities. */
  predicate Honest(entities: seq<string>, success: bool) {
    !success ==> entities == []
  }

  /** New ids are new. A consolidation reads live rows as they are; it merges memories whose rows are still there
      (a reconcile removes the vector before the row, and without the vector there is nothing to merge). A
      reconcile that gets as far as the tombstoned rows has read the merge log. */
  ghost predicate Possible(m: Machine, e: Event) {
    match e
    case CommitOne(_, _, run, _) =>
      run.id !in m.store.rows && (run.attached.Some? ==> Honest(run.attached.value.0, run.attached.value.1))
    case AttachTo(_, entities, success) => Honest(entities, success)
    case AddRow(item, _, _) => item.id !in m.store.rows && PendingEmpty(item)
    case ReconcileAll(_, run) => run.mergesListed || !run.rowsListed || !run.tombsListed
    case Begin(changed) =>
      && m.stage == Idle && Snapshot(changed)
      && forall i | 0 <= i < |changed| :: changed[i].id in m.store.rows && m.store.rows[changed[i].id] == changed[i]
    case TendNext(_, _, _) => m.stage == Tending && m.next < |m.changed|
    case MergeNext(_, _, _) =>
      m.stage == Merging && m.next < |m.changed| && ReadFrom(m.store.rows, m.changed[m.next])
    case ExtractNext(_, _) => m.stage == Extracting && m.next < |m.changed|
    case Skip => m.stage != Idle && m.next < |m.changed|
    case Proceed => (m.stage == Tending || m.stage == Merging) && m.next == |m.changed|
    case _ => true
  }

  /** What an event does to the stores. */
  function StoreAfter(m: Machine, e: Event): Store
    requires Possible(m, e)
  {
    var st := m.store;
    match e
    case CommitOne(x, turn, run, now) => CommitTurn(st, x, turn, run, now).0
    case AttachTo(id, entities, success) => st.(rows := Attach(st.rows, id, Some((entities, success))))
    case AddRow(item, v, vector) => st.(rows := Put(st.rows, item), vectors := InsertVector(st.vectors, v, vector))
    case DeleteOne(id, calls, now) => Delete(st, id, calls, now).0
    case UnmergeOne(id, calls) => Unmerge(st, id, calls).0
    case ReconcileAll(scope, run) => Reconcile(st, scope, run).0
    case TendNext(verdict, calls, now) => UpkeepOne(Upkeep(st, 0, 0, []), m.changed[m.next], verdict, calls, now).store
    case MergeNext(run, index, at) => MergeSource(Pass(st, 0, [], false), m.changed[m.next], run, index, at).store
    case ExtractNext(run, now) => ReextractOne(Reextract(st, 0, []), m.changed[m.next], run, now).store
    case _ => st
  }

  function Happen(m: Machine, e: Event): Machine
    requires Possible(m, e)
  {
    var st := StoreAfter(m, e);
    match e
    case Begin(changed) => Machine(st, Tending, changed, 0)
    case TendNext(_, _, _) => m.(store := st, next := m.next + 1)
    case MergeNext(_, _, _) => m.(store := st, next := m.next + 1)
    case ExtractNext(_, _) => m.(store := st, next := m.next + 1)
    case Skip => m.(next := m.next + 1)
    case Proceed => m.(stage := if m.stage == Tending then Merging else Extracting, next := 0)
    case End => Machine(st, Idle, [], 0)
    case _ => m.(store := st)
  }

  // ---------------------------------------------------------------- the phases of a consolidation are runs

  lemma TendNextIsPhase(m: Machine, st: Store, verdicts: seq<Verdict>, calls: seq<UpkeepCalls>, now: nat)
    requires m.stage == Tending && m.next < |m.changed| == |verdicts| == |calls|
    requires m.store == UpkeepPass(st, m.changed, verdicts, calls, now, m.next).store
    ensures var m' := Happen(m, TendNext(verdicts[m.next], calls[m.next], now));
            m'.next == m.next + 1 && m'.store == UpkeepPass(st, m.changed, verdicts, calls, now, m'.next).store
  {
  }

  /** A merge pass that has not ended early goes on with the next memory. */
  lemma MergeNextIsPhase(m: Machine, st: Store, runs: seq<SourceRun>, index: map<nat, MemoryItem>, at: nat)
    requires m.stage == Merging && m.next < |m.changed| == |runs| && ReadFrom(m.store.rows, m.changed[m.next])
    requires var p := MergePass(st, m.changed, runs, index, at, m.next); m.store == p.store && !p.aborted
    ensures var m' := Happen(m, MergeNext(runs[m.next], index, at));
            m'.next == m.next + 1 && m'.store == MergePass(st, m.changed, runs, index, at, m'.next).store
  {
  }

  lemma ExtractNextIsPhase(m: Machine, st: Store, runs: seq<ExtractRun>, now: nat)
    requires m.stage == Extracting && m.next < |m.changed| == |runs|
    requires m.store == ReextractPass(st, m.changed, runs, now, m.next).store
    ensures var m' := Happen(m, ExtractNext(runs[m.next], now));
            m'.next == m.next + 1 && m'.store == ReextractPass(st, m.changed, runs, now, m'.next).store
  {
  }

  const NEW_ENGINE := Machine(Store(map[], map[], [], 0, [], 0), Idle, [], 0)

  ghost predicate CanHappen(m: Machine, events: seq<Event>)
    decreases |events|
  {
    events == [] || (Possible(m, events[0]) && CanHappen(Happen(m, events[0]), events[1..]))
  }

  ghost function Happened(m: Machine, events: seq<Event>): Machine
    requires CanHappen(m, events)
    decreases |events|
  {
    if events == [] then m else Happened(Happen(m, events[0]), events[1..])
  }

  // ---------------------------------------------------------------- what every event keeps

  ghost predicate AllPendingEmpty(rows: Rows) {
    forall id | id in rows :: PendingEmpty(rows[id])
  }

  /** A memory of the snapshot that is in the merge log was merged by this consolidation, which has come past it; it
      was not waiting for entities. */
  ghost predicate SnapshotTrue(m: Machine) {
    && Snapshot(m.changed)
    && forall i | 0 <= i < |m.changed| ::
         && PendingEmpty(m.changed[i])
         && (m.changed[i].id in Sources(m.store.merges) ==>
               !m.changed[i].entitiesPending && (m.stage == Extracting || (m.stage == Merging && i < m.next)))
  }

  ghost predicate MachineInv(m: Machine) {
    Inv(m.store) && AllPendingEmpty(m.store.rows) && SnapshotTrue(m)
  }

  /** The merge log as before, and its memories still tombstoned under the same reference. */
  ghost predicate SourcesLeft(st: Store, st': Store) {
    && st'.merges == st.merges && st'.nextMergeId == st.nextMergeId
    && forall r | r in st.merges ::
         && r.fact.sourceId in st.rows && r.fact.sourceId in st'.rows && st'.rows[r.fact.sourceId].tombstone
         && st'.rows[r.fact.sourceId].vectorRef == st.rows[r.fact.sourceId].vectorRef
  }

  lemma InvLeft(st: Store, st': Store)
    requires Inv(st) && SourcesLeft(st, st')
    ensures Inv(st')
  {
    forall r | r in st'.merges ensures KeptSource(st', r.fact.sourceId) {
      assert KeptSource(st, r.fact.sourceId);
    }
  }

  /** Changing one row that is no merge source. */
  lemma OtherRow(st: Store, st': Store, id: string)
    requires Inv(st) && st'.merges == st.merges && st'.nextMergeId == st.nextMergeId
    requires id in Sources(st.merges) ==> id in st.rows && st'.rows == WithTombstone(st.rows, id, true)
    requires forall other | other in st.rows && other != id :: other in st'.rows && st'.rows[other] == st.rows[other]
    ensures Inv(st')
  {
    forall r | r in st.merges
      ensures r.fact.sourceId in st.rows && r.fact.sourceId in st'.rows && st'.rows[r.fact.sourceId].tombstone
      ensures st'.rows[r.fact.sourceId].vectorRef == st.rows[r.fact.sourceId].vectorRef
    {
      assert KeptSource(st, r.fact.sourceId) && r.fact.sourceId in Sources(st.merges);
    }
    InvLeft(st, st');
  }

  lemma CommitKeeps(m: Machine, e: Event)
    requires MachineInv(m) && Possible(m, e) && e.CommitOne?
    ensures Inv(StoreAfter(m, e)) && AllPendingEmpty(StoreAfter(m, e).rows) && StoreAfter(m, e).merges == m.store.merges
  {
    OtherRow(m.store, StoreAfter(m, e), e.turnRun.id);
  }

  lemma AttachKeeps(m: Machine, e: Event)
    requires MachineInv(m) && Possible(m, e) && e.AttachTo?
    ensures Inv(StoreAfter(m, e)) && AllPendingEmpty(StoreAfter(m, e).rows) && StoreAfter(m, e).merges == m.store.merges
  {
    forall r | r in m.store.merges ensures KeptSource(m.store, r.fact.sourceId) {
    }
    InvLeft(m.store, StoreAfter(m, e));
  }

  lemma AddKeeps(m: Machine, e: Event)
    requires MachineInv(m) && Possible(m, e) && e.AddRow?
    ensures Inv(StoreAfter(m, e)) && AllPendingEmpty(StoreAfter(m, e).rows) && StoreAfter(m, e).merges == m.store.merges
  {
    OtherRow(m.store, StoreAfter(m, e), e.item.id);
  }

  lemma DeleteKeeps(m: Machine, e: Event)
    requires MachineInv(m) && Possible(m, e) && e.DeleteOne?
    ensures Inv(StoreAfter(m, e)) && AllPendingEmpty(StoreAfter(m, e).rows) && StoreAfter(m, e).merges == m.store.merges
  {
    forall r | r in m.store.merges ensures KeptSource(m.store, r.fact.sourceId) {
    }
    InvLeft(m.store, StoreAfter(m, e));
  }

  lemma ReconcileKeeps(m: Machine, e: Event)
    requires MachineInv(m) && Possible(m, e) && e.ReconcileAll?
    ensures Inv(StoreAfter(m, e)) && AllPendingEmpty(StoreAfter(m, e).rows) && StoreAfter(m, e).merges == m.store.merges
  {
    forall r | r in m.store.merges
      ensures r.fact.sourceId in m.store.rows && r.fact.sourceId in StoreAfter(m, e).rows
      ensures m.store.rows[r.fact.sourceId].tombstone
    {
      assert KeptSource(m.store, r.fact.sourceId) && r.fact.sourceId in Sources(m.store.merges);
    }
    InvLeft(m.store, StoreAfter(m, e));
  }

  lemma TombstonePendingEmpty(rows: Rows, id: string, flag: bool)
    requires AllPendingEmpty(rows)
    ensures AllPendingEmpty(WithTombstone(rows, id, flag))
  {
  }

  /** Whatever fails, an unmerge only takes its log row away, and then at most untombstones its source. */
  lemma UnmergeTouches(st: Store, row: MergeRow, calls: UnmergeCalls)
    requires Inv(st) && row in st.merges
    ensures var st' := Unmerge(st, row.id, calls).0;
            && st'.merges == WithoutMerge(st.merges, row.id) && st'.nextMergeId == st.nextMergeId
            && (st'.rows == st.rows || st'.rows == WithTombstone(st.rows, row.fact.sourceId, false))
  {
    FindsIts(st, row);
    assert KeptSource(st, row.fact.sourceId);
  }

  lemma OneSourceLess(st: Store, st': Store, row: MergeRow)
    requires Inv(st) && row in st.merges
    requires st'.merges == WithoutMerge(st.merges, row.id) && st'.nextMergeId == st.nextMergeId
    requires st'.rows == st.rows || st'.rows == WithTombstone(st.rows, row.fact.sourceId, false)
    ensures Inv(st') && Sources(st'.merges) <= Sources(st.merges)
  {
    FindsIts(st, row);
    WithoutKeepsDistinct(st.merges, row.id);
    forall n | n in st'.merges ensures n in st.merges && KeptSource(st', n.fact.sourceId) {
      assert KeptSource(st, n.fact.sourceId) && n.fact.sourceId != row.fact.sourceId;
    }
  }

  lemma UnmergeKeeps(m: Machine, e: Event)
    requires MachineInv(m) && Possible(m, e) && e.UnmergeOne?
    ensures Inv(StoreAfter(m, e)) && AllPendingEmpty(StoreAfter(m, e).rows)
    ensures Sources(StoreAfter(m, e).merges) <= Sources(m.store.merges)
  {
    FindMergeFinds(m.store.merges, e.mergeId);
    var found := FindMerge(m.store.merges, e.mergeId);
    if found.Some? {
      var row := MergeRow(e.mergeId, found.value);
      UnmergeTouches(m.store, row, e.unmergeCalls);
      OneSourceLess(m.store, StoreAfter(m, e), row);
      TombstonePendingEmpty(m.store.rows, row.fact.sourceId, false);
    }
  }

  /** Recycling and promoting change one row. */
  lemma TendTouchesOne(u: Upkeep, item: MemoryItem, verdict: Verdict, calls: UpkeepCalls, now: nat)
    requires PendingEmpty(item) && AllPendingEmpty(u.store.rows)
    ensures var st' := UpkeepOne(u, item, verdict, calls, now).store;
            && st'.merges == u.store.merges && st'.nextMergeId == u.store.nextMergeId && AllPendingEmpty(st'.rows)
            && forall other | other in u.store.rows && other != item.id ::
                 other in st'.rows && st'.rows[other] == u.store.rows[other]
  {
  }

  lemma TendKeeps(m: Machine, e: Event)
    requires MachineInv(m) && Possible(m, e) && e.TendNext?
    ensures Inv(StoreAfter(m, e)) && AllPendingEmpty(StoreAfter(m, e).rows) && StoreAfter(m, e).merges == m.store.merges
  {
    var item := m.changed[m.next];
    assert PendingEmpty(item) && item.id !in Sources(m.store.merges);
    TendTouchesOne(Upkeep(m.store, 0, 0, []), item, e.verdict, e.upkeepCalls, e.now);
    OtherRow(m.store, StoreAfter(m, e), item.id);
  }

  lemma ExtractKeeps(m: Machine, e: Event)
    requires MachineInv(m) && Possible(m, e) && e.ExtractNext?
    ensures Inv(StoreAfter(m, e)) && AllPendingEmpty(StoreAfter(m, e).rows) && StoreAfter(m, e).merges == m.store.merges
  {
    var item := m.changed[m.next];
    if Rewrites(item, e.extractRun) {
      assert item.id !in Sources(m.store.merges);
      OtherRow(m.store, StoreAfter(m, e), item.id);
    } else {
      assert StoreAfter(m, e).rows == m.store.rows && StoreAfter(m, e).merges == m.store.merges;
      InvLeftAlone(m.store, StoreAfter(m, e));
    }
  }

  lemma InvLeftAlone(st: Store, st': Store)
    requires Inv(st) && st'.rows == st.rows && st'.merges == st.merges && st'.nextMergeId == st.nextMergeId
    ensures Inv(st')
  {
    forall r | r in st'.merges ensures KeptSource(st', r.fact.sourceId) {
      assert KeptSource(st, r.fact.sourceId);
    }
  }

  // ---------------------------------------------------------------- merges

  lemma DistinctSnoc(merges: seq<MergeRow>, row: MergeRow)
    requires DistinctMerges(merges)
    requires forall r | r in merges :: r.id != row.id && r.fact.sourceId != row.fact.sourceId
    ensures DistinctMerges(merges + [row])
  {
  }

  /** One more memory merged away that was not merged away before. */
  lemma OneMoreSource(st: Store, st': Store, row: MergeRow)
    requires Inv(st) && row.fact.sourceId !in Sources(st.merges) && row.id == st.nextMergeId
    requires st'.merges == st.merges + [row] && st'.nextMergeId == st.nextMergeId + 1
    requires st'.rows == WithTombstone(st.rows, row.fact.sourceId, true)
    requires row.fact.sourceId in st.rows && Ref(st.rows[row.fact.sourceId]).Some?
    ensures Inv(st')
  {
    forall r | r in st.merges
      ensures r.id != row.id && r.fact.sourceId != row.fact.sourceId && KeptSource(st', r.fact.sourceId)
    {
      assert KeptSource(st, r.fact.sourceId) && r.fact.sourceId in Sources(st.merges);
    }
    DistinctSnoc(st.merges, row);
  }

  lemma SourcesSnoc(merges: seq<MergeRow>, row: MergeRow)
    ensures Sources(merges + [row]) == Sources(merges) + {row.fact.sourceId}
  {
    assert row in merges + [row];
    forall id | id in Sources(merges) ensures id in Sources(merges + [row]) {
      var r :| r in merges && r.fact.sourceId == id;
      assert r in merges + [row];
    }
  }

  lemma RecordedStore(st: Store, src: string, vr: nat, vec: Vector, tgt: string, b: Backend, at: nat)
    requires b.recordOk
    ensures var st' := MergeInto(st, src, vr, vec, tgt, b, at).0;
            && st'.merges == st.merges + [MergeRow(st.nextMergeId, MergeFact(src, tgt, MERGE_REASON, at))]
            && st'.nextMergeId == st.nextMergeId + 1 && st'.rows == WithTombstone(st.rows, src, true)
  {
  }

  lemma UnrecordedStore(st: Store, src: string, vr: nat, vec: Vector, tgt: string, b: Backend, at: nat)
    requires !b.recordOk
    ensures var st' := MergeInto(st, src, vr, vec, tgt, b, at).0;
            && st'.merges == st.merges && st'.nextMergeId == st.nextMergeId
            && var dead := WithTombstone(st.rows, src, true);
               st'.rows == if b.untombstoneOk then WithTombstone(dead, src, false) else dead
  {
  }

  /** A merge attempt changes at most the tombstone of its source, which shares an entity with its target. */
  lemma AttemptKeeps(st: Store, src: MemoryItem, vec: Vector, tgt: string, b: Backend, at: nat)
    requires Inv(st) && AllPendingEmpty(st.rows) && ReadFrom(st.rows, src) && Ref(src).Some?
    requires src.id !in Sources(st.merges)
    ensures var st' := MergeInto(st, src.id, Ref(src).value, vec, tgt, b, at).0;
            && Inv(st') && AllPendingEmpty(st'.rows)
            && Sources(st'.merges) == Sources(st.merges) + (if b.recordOk then {src.id} else {})
  {
    var st' := MergeInto(st, src.id, Ref(src).value, vec, tgt, b, at).0;
    TombstonePendingEmpty(st.rows, src.id, true);
    if b.recordOk {
      var row := MergeRow(st.nextMergeId, MergeFact(src.id, tgt, MERGE_REASON, at));
      RecordedStore(st, src.id, Ref(src).value, vec, tgt, b, at);
      OneMoreSource(st, st', row);
      SourcesSnoc(st.merges, row);
    } else {
      UnrecordedStore(st, src.id, Ref(src).value, vec, tgt, b, at);
      TombstonePendingEmpty(WithTombstone(st.rows, src.id, true), src.id, false);
      OtherRow(st, st', src.id);
    }
  }

  lemma MergeKeeps(m: Machine, e: Event)
    requires MachineInv(m) && Possible(m, e) && e.MergeNext?
    ensures Inv(StoreAfter(m, e)) && AllPendingEmpty(StoreAfter(m, e).rows)
    ensures var src, st' := m.changed[m.next], StoreAfter(m, e);
            || Sources(st'.merges) == Sources(m.store.merges)
            || (Sources(st'.merges) == Sources(m.store.merges) + {src.id} && !src.entitiesPending)
  {
    var p, src := Pass(m.store, 0, [], false), m.changed[m.next];
    AttemptIsAll(p, src, e.run, e.index, e.at);
    var h := AttemptOf(p, src, e.run, e.index);
    assert PendingEmpty(src) && src.id !in Sources(m.store.merges);
    if h.Some? {
      AttemptKeeps(m.store, src, m.store.vectors[Ref(src).value], e.index[h.value.vecId].id, h.value.backend, e.at);
    }
  }

  // ---------------------------------------------------------------- every run

  lemma SnapshotKept(m: Machine, m': Machine)
    requires SnapshotTrue(m) && m'.changed == m.changed && m'.stage == m.stage && m'.next >= m.next
    requires Sources(m'.store.merges) <= Sources(m.store.merges)
    ensures SnapshotTrue(m')
  {
  }

  lemma LiveIsNoSource(st: Store, id: string)
    requires Inv(st) && id in st.rows && !st.rows[id].tombstone
    ensures id !in Sources(st.merges)
  {
    forall r | r in st.merges ensures r.fact.sourceId != id {
      assert KeptSource(st, r.fact.sourceId);
    }
  }

  lemma BeginKeeps(m: Machine, e: Event)
    requires MachineInv(m) && Possible(m, e) && e.Begin?
    ensures MachineInv(Happen(m, e))
  {
    forall i | 0 <= i < |e.changed| ensures e.changed[i].id !in Sources(m.store.merges) && PendingEmpty(e.changed[i]) {
      LiveIsNoSource(m.store, e.changed[i].id);
    }
  }

  lemma MergeKeepsMachine(m: Machine, e: Event)
    requires MachineInv(m) && Possible(m, e) && e.MergeNext?
    ensures MachineInv(Happen(m, e))
  {
    MergeKeeps(m, e);
    var m' := Happen(m, e);
    forall i | 0 <= i < |m'.changed| && m'.changed[i].id in Sources(m'.store.merges)
      ensures !m'.changed[i].entitiesPending && i < m'.next
    {
      assert m.changed[i].id in Sources(m.store.merges) || m.changed[i].id == m.changed[m.next].id;
    }
  }

  /** Every event, whatever calls fail in it, keeps merged memories restorable and entities away from memories that
      wait for them. */
  lemma EventKeeps(m: Machine, e: Event)
    requires MachineInv(m) && Possible(m, e)
    ensures MachineInv(Happen(m, e))
  {
    match e {
      case CommitOne(_, _, _, _) => CommitKeeps(m, e);
      case AttachTo(_, _, _) => AttachKeeps(m, e);
      case AddRow(_, _, _) => AddKeeps(m, e);
      case DeleteOne(_, _, _) => DeleteKeeps(m, e);
      case UnmergeOne(_, _) => UnmergeKeeps(m, e);
      case ReconcileAll(_, _) => ReconcileKeeps(m, e);
      case TendNext(_, _, _) => TendKeeps(m, e);
      case ExtractNext(_, _) => ExtractKeeps(m, e);
      case MergeNext(_, _, _) => MergeKeepsMachine(m, e);
      case Begin(_) => BeginKeeps(m, e);
      case _ =>
    }
    if !e.MergeNext? && !e.Begin? && !e.End? && !e.Proceed? {
      SnapshotKept(m, Happen(m, e));
    }
  }

  lemma {:induction false} RunKeeps(m: Machine, events: seq<Event>)
    requires MachineInv(m) && CanHappen(m, events)
    ensures MachineInv(Happened(m, events))
    decreases |events|
  {
    if events != [] {
      EventKeeps(m, events[0]);
      RunKeeps(Happen(m, events[0]), events[1..]);
    }
  }

  /** After any run, with any calls failing and also in the middle of a consolidation, every memory in the merge log
      is still there and tombstoned, and an unmerge brings it back exactly when the calls it needs succeed: live,
      with a vector under its own id, its log row gone and nothing else changed. */
  lemma MergesStayReversible(events: seq<Event>, row: MergeRow, calls: UnmergeCalls)
    requires CanHappen(NEW_ENGINE, events) && row in Happened(NEW_ENGINE, events).store.merges
    ensures var st := Happened(NEW_ENGINE, events).store;
            var (st', result) := Unmerge(st, row.id, calls);
            var src := row.fact.sourceId;
            && KeptSource(st, src)
            && (result == Ok(true) <==> Restorable(st, src, calls))
            && (result == Ok(true) ==>
                  && st'.rows == st.rows[src := st.rows[src].(tombstone := false)]
                  && var ref := Ref(st.rows[src]).value;
                     st'.vectors == if ref in st.vectors then st.vectors else st.vectors[ref := calls.embedding.value])
            && (forall n :: n in st'.merges <==> n in st.merges && n != row)
  {
    RunKeeps(NEW_ENGINE, events);
    UnmergeRestores(Happened(NEW_ENGINE, events).store, row, calls);
  }

  /** After any run a memory that waits for its entities has none, and so late extraction never rewrites one that was
      merged away. */
  lemma PendingHasNoEntities(events: seq<Event>)
    requires CanHappen(NEW_ENGINE, events)
    ensures var m := Happened(NEW_ENGINE, events);
            && AllPendingEmpty(m.store.rows)
            && forall i, run: ExtractRun | 0 <= i < |m.changed| && Rewrites(m.changed[i], run) ::
                 m.changed[i].id !in Sources(m.store.merges)
  {
    RunKeeps(NEW_ENGINE, events);
  }

  // ---------------------------------------------------------------- such runs exist

  const SMOOTH := Backend(true, true, true, true, true, true)

  /** Two imported memories that find each other; a consolidation reads one of them and merges it into the other. */
  function Imports(a: MemoryItem, b: MemoryItem): seq<Event> {
    [AddRow(a, 1, []), AddRow(b, 2, []), Begin([a]), Skip, Proceed]
  }

  lemma FiveEvents(m: Machine, events: seq<Event>, m1: Machine, m2: Machine, m3: Machine, m4: Machine, m5: Machine)
    requires |events| == 5
    requires Possible(m, events[0]) && m1 == Happen(m, events[0])
    requires Possible(m1, events[1]) && m2 == Happen(m1, events[1])
    requires Possible(m2, events[2]) && m3 == Happen(m2, events[2])
    requires Possible(m3, events[3]) && m4 == Happen(m3, events[3])
    requires Possible(m4, events[4]) && m5 == Happen(m4, events[4])
    ensures CanHappen(m, events) && Happened(m, events) == m5
  {
    assert events[1..][1..] == events[2..] && events[2..][1..] == events[3..] && events[3..][1..] == events[4..];
    assert events[4..][1..] == [];
    assert CanHappen(m5, []) && CanHappen(m4, events[4..]) && Happened(m4, events[4..]) == m5;
    assert CanHappen(m3, events[3..]) && Happened(m3, events[3..]) == m5;
    assert CanHappen(m2, events[2..]) && Happened(m2, events[2..]) == m5;
    assert CanHappen(m1, events[1..]) && Happened(m1, events[1..]) == m5;
  }

  lemma ImportsLead(a: MemoryItem, b: MemoryItem)
    requires AreTwins(a, b) && PendingEmpty(a) && PendingEmpty(b)
    ensures CanHappen(NEW_ENGINE, Imports(a, b))
    ensures Happened(NEW_ENGINE, Imports(a, b))
            == Machine(Store(map[a.id := a, b.id := b], map[1 := [], 2 := []], [], 0, [], 0), Merging, [a], 0)
  {
    var events := Imports(a, b);
    var m1 := Happen(NEW_ENGINE, events[0]);
    var m2 := Happen(m1, events[1]);
    assert m2.store.rows == map[a.id := a, b.id := b] && m2.store.vectors == map[1 := [], 2 := []];
    var m3 := Happen(m2, events[2]);
    var m4 := Happen(m3, events[3]);
    assert m4.next == 1;
    var m5 := Happen(m4, events[4]);
    assert events[1..] == [events[1], events[2], events[3], events[4]]
           && events[2..] == [events[2], events[3], events[4]] && events[3..] == [events[3], events[4]] && events[4..] == [events[4]] && events[5..] == [];
    FiveEvents(NEW_ENGINE, events, m1, m2, m3, m4, m5);
  }

  lemma {:induction false} OneMoreEvent(m: Machine, events: seq<Event>, e: Event)
    requires CanHappen(m, events) && Possible(Happened(m, events), e)
    ensures CanHappen(m, events + [e]) && Happened(m, events + [e]) == Happen(Happened(m, events), e)
    decreases |events|
  {
    var all := events + [e];
    if events == [] {
      assert all[1..] == [] && CanHappen(Happen(m, e), []);
    } else {
      assert all[0] == events[0] && all[1..] == events[1..] + [e];
      OneMoreEvent(Happen(m, events[0]), events[1..], e);
    }
  }

  lemma TwinMerged(m: Machine, a: MemoryItem, b: MemoryItem) returns (e: Event)
    requires AreTwins(a, b)
    requires m == Machine(Store(map[a.id := a, b.id := b], map[1 := [], 2 := []], [], 0, [], 0), Merging, [a], 0)
    ensures Possible(m, e) && Happen(m, e).store.merges == [MergeRow(0, MergeFact(a.id, b.id, MERGE_REASON, 0))]
    ensures Happen(m, e).store.rows == map[a.id := a.(tombstone := true), b.id := b]
  {
    e := MergeNext(SourceRun(true, Some([Hit(2, 1.0, SMOOTH)])), map[2 := b], 0);
  }

  /** A run in which a memory is merged away. */
  lemma SomeRunMerges() returns (events: seq<Event>, row: MergeRow)
    ensures CanHappen(NEW_ENGINE, events)
    ensures var st := Happened(NEW_ENGINE, events).store;
            && st.merges == [row] && KeptSource(st, row.fact.sourceId)
            && row.fact.targetId in st.rows && !st.rows[row.fact.targetId].tombstone
  {
    var a, b := TwinsExist();
    events := Imports(a, b);
    ImportsLead(a, b);
    var merge := TwinMerged(Happened(NEW_ENGINE, events), a, b);
    OneMoreEvent(NEW_ENGINE, events, merge);
    row := MergeRow(0, MergeFact(a.id, b.id, MERGE_REASON, 0));
    events := events + [merge];
    RunKeeps(NEW_ENGINE, events);
    assert row in Happened(NEW_ENGINE, events).store.merges;
  }

  const NOTE := TurnRun("m", 7, Some([]), true, true, true, None)

  ghost predicate Reaches(events: seq<Event>, m: Machine) {
    CanHappen(NEW_ENGINE, events) && Happened(NEW_ENGINE, events) == m
  }

  lemma ReachesNext(events: seq<Event>, m: Machine, e: Event, m': Machine)
    requires Reaches(events, m) && Possible(m, e) && m' == Happen(m, e)
    ensures Reaches(events + [e], m')
  {
    OneMoreEvent(NEW_ENGINE, events, e);
  }

  lemma TurnCommitted(e: Event) returns (m: Machine)
    requires e == CommitOne(Interaction("ix", "s", "", "", ""), Turn(0, "c"), NOTE, 0)
    ensures Possible(NEW_ENGINE, e) && m == Happen(NEW_ENGINE, e) && m.store.merges == []
    ensures NOTE.id in m.store.rows && !m.store.rows[NOTE.id].tombstone && Ref(m.store.rows[NOTE.id]) == Some(7)
  {
    m := Happen(NEW_ENGINE, e);
    DecimalRoundTrip(7);
  }

  lemma RowDeleted(m: Machine, id: string, e: Event) returns (m': Machine)
    requires id in m.store.rows && e == DeleteOne(id, DeleteCalls(true, true, true, true), 0)
    ensures Possible(m, e) && m' == Happen(m, e) && m'.store.merges == m.store.merges && id in m'.store.rows
    ensures m'.store.rows[id].tombstone && Ref(m'.store.rows[id]) == Ref(m.store.rows[id])
  {
    m' := Happen(m, e);
  }

  lemma RowRemoved(m: Machine, id: string, e: Event) returns (m': Machine)
    requires id in m.store.rows && m.store.rows[id].tombstone && Ref(m.store.rows[id]).Some? && m.store.merges == []
    requires e.ReconcileAll? && e.reconcileRun == NO_TROUBLE
    ensures Possible(m, e) && m' == Happen(m, e) && id !in m'.store.rows
  {
    m' := Happen(m, e);
  }

  lemma AtStart()
    ensures Reaches([], NEW_ENGINE)
  {
  }

  /** A run in which a memory is committed, deleted and removed for good. */
  lemma SomeRunForgets(scope: Scope) returns (runs: seq<seq<Event>>, ms: seq<Machine>)
    ensures |runs| == |ms| == 3 && runs[0] < runs[1] < runs[2]
    ensures Reaches(runs[0], ms[0]) && Reaches(runs[1], ms[1]) && Reaches(runs[2], ms[2])
    ensures NOTE.id in ms[0].store.rows && !ms[0].store.rows[NOTE.id].tombstone
    ensures NOTE.id in ms[1].store.rows && ms[1].store.rows[NOTE.id].tombstone
    ensures NOTE.id !in ms[2].store.rows
  {
    var commit := CommitOne(Interaction("ix", "s", "", "", ""), Turn(0, "c"), NOTE, 0);
    var delete := DeleteOne(NOTE.id, DeleteCalls(true, true, true, true), 0);
    var remove := ReconcileAll(scope, NO_TROUBLE);
    var live := TurnCommitted(commit);
    var dead := RowDeleted(live, NOTE.id, delete);
    var gone := RowRemoved(dead, NOTE.id, remove);
    AtStart();
    var a := [] + [commit];
    ReachesNext([], NEW_ENGINE, commit, live);
    var b := a + [delete];
    ReachesNext(a, live, delete, dead);
    var c := b + [remove];
    ReachesNext(b, dead, remove, gone);
    runs, ms := [a, b, c], [live, dead, gone];
  }
}
