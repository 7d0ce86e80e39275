/**
 The engine's two stores as one value, and each cross-store operation as a function from the state before to
 the state after. Backend calls that may fail are named by the outcomes they are given.
 */
module Saga {
  import opened Basics
  import opened TextFormat
  import opened Items
  import Namespace

  datatype MergeRow = MergeRow(id: nat, fact: MergeFact)

  /** Rows, merge log and write-op log live in one database, the vectors in another store. */
  datatype Store = Store(rows: Rows, vectors: Vectors, merges: seq<MergeRow>, nextMergeId: nat, wops: seq<WopEntry>,
                         lastSeq: nat)

  /** The calls that fail and are only reported, by memory and stage. */
  datatype Trouble = Trouble(memoryId: string, stage: string)

  function AppendWop(st: Store, op: string, payload: Payload, at: nat): Store {
    st.(wops := st.wops + [WopEntry(st.lastSeq + 1, op, payload, at)], lastSeq := st.lastSeq + 1)
  }

  // ---------------------------------------------------------------- commit

  datatype Interaction = Interaction(id: string, session: string, tenant: string, namespace: string,
                                     namespaceKey: string)

  /** A turn to store: its index and its (already redacted) text. */
  datatype Turn = Turn(turnIdx: nat, content: string)

  /** The id drawn for a turn with its vector id, and how the calls made for it turn out. `attached` is what
      the entity extractor finds and whether it succeeded, if there is one. */
  datatype TurnRun = TurnRun(id: string, vecId: nat, embedding: Option<Vector>, insertOk: bool, persistOk: bool,
                             cleanOk: bool, attached: Option<(seq<string>, bool)>)

  datatype TurnFailure = TurnFailure(turnIdx: nat, stage: string)

  function NewItem(x: Interaction, turn: Turn, run: TurnRun, now: nat): MemoryItem {
    MemoryItem(run.id, x.id, x.session, x.tenant, x.namespace, x.namespaceKey, Episodic, Working, turn.content, [],
               Decimal(run.vecId), 0, now, now, false, true)
  }

  function Attach(rows: Rows, id: string, attached: Option<(seq<string>, bool)>): Rows {
    if attached.None? || id !in rows then rows
    else rows[id := rows[id].(entities := attached.value.0, entitiesPending := !attached.value.1)]
  }

  /** One turn: embed, insert the vector, then row and log entry in one transaction; a failed transaction
      takes the vector out again. */
  function CommitTurn(st: Store, x: Interaction, turn: Turn, run: TurnRun, now: nat)
    : (Store, Result<string, TurnFailure>)
  {
    if run.embedding.None? then (st, Err(TurnFailure(turn.turnIdx, "embed")))
    else if !run.insertOk then (st, Err(TurnFailure(turn.turnIdx, "insert_vector")))
    else
      var item := NewItem(x, turn, run, now);
      var inserted := st.(vectors := InsertVector(st.vectors, run.vecId, run.embedding.value));
      if !run.persistOk then
        var cleaned := if run.cleanOk then inserted.(vectors := inserted.vectors - {run.vecId}) else inserted;
        (cleaned, Err(TurnFailure(turn.turnIdx, "persist")))
      else
        var stored := AppendWop(inserted.(rows := Put(inserted.rows, item)), "commit",
                                Envelope(item, run.embedding), now);
        (stored.(rows := Attach(stored.rows, run.id, run.attached)), Ok(run.id))
  }

  datatype CommitResult = CommitResult(store: Store, ids: seq<string>, failed: seq<TurnFailure>)

  /** The first `n` turns, each isolated from the failures of the others. */
  function CommitTurns(st: Store, x: Interaction, turns: seq<Turn>, runs: seq<TurnRun>, now: nat, n: nat): CommitResult
    requires n <= |turns| == |runs|
    decreases n
  {
    if n == 0 then CommitResult(st, [], [])
    else
      var before := CommitTurns(st, x, turns, runs, now, n - 1);
      var (after, result) := CommitTurn(before.store, x, turns[n - 1], runs[n - 1], now);
      match result
      case Ok(id) => CommitResult(after, before.ids + [id], before.failed)
      case Err(f) => CommitResult(after, before.ids, before.failed + [f])
  }

  // ---------------------------------------------------------------- delete

  datatype DeleteCalls = DeleteCalls(getOk: bool, vectorOk: bool, tombstoneOk: bool, appendOk: bool)

  /** Deletes the vector, sets the tombstone and logs; the first failing call ends it there. */
  function Delete(st: Store, id: string, calls: DeleteCalls, now: nat): (Store, bool) {
    var ref := if id in st.rows then Ref(st.rows[id]) else None;
    if !calls.getOk || (ref.Some? && !calls.vectorOk) then (st, false)
    else
      var st1 := if ref.Some? then st.(vectors := st.vectors - {ref.value}) else st;
      if !calls.tombstoneOk then (st1, false)
      else
        var st2 := st1.(rows := WithTombstone(st1.rows, id, true));
        if !calls.appendOk then (st2, false) else (AppendWop(st2, "delete", Text(id), now), true)
  }

  // ---------------------------------------------------------------- recycle and promote

  /** Changed memories are listed by primary key. */
  ghost predicate DistinctIds(changed: seq<MemoryItem>) {
    forall i, j | 0 <= i < j < |changed| :: changed[i].id != changed[j].id
  }

  /** Only live ones are listed. */
  ghost predicate Snapshot(changed: seq<MemoryItem>) {
    DistinctIds(changed) && forall i | 0 <= i < |changed| :: !changed[i].tombstone
  }

  /** What the weight of a memory calls for. */
  datatype Verdict = Recycle | Promote | Leave

  datatype UpkeepCalls = UpkeepCalls(deleteOk: bool, tombstoneOk: bool, putOk: bool, appendOk: bool)

  /** `dropped` and `promoted` count memories. */
  datatype Upkeep = Upkeep(store: Store, dropped: nat, promoted: nat, troubles: seq<Trouble>)

  function AppendIf(st: Store, ok: bool, op: string, payload: Payload, at: nat): Store {
    if ok then AppendWop(st, op, payload, at) else st
  }

  function RecycleOne(u: Upkeep, m: MemoryItem, calls: UpkeepCalls, now: nat): Upkeep {
    var st1 := if Ref(m).Some? && calls.deleteOk
               then u.store.(vectors := u.store.vectors - {Ref(m).value}) else u.store;
    var st2 := if calls.tombstoneOk then st1.(rows := WithTombstone(st1.rows, m.id, true)) else st1;
    Upkeep(AppendIf(st2, calls.appendOk, "recycle", Text(m.id), now), u.dropped + 1, u.promoted,
           u.troubles + (if Ref(m).Some? && !calls.deleteOk then [Trouble(m.id, "recycle")] else [])
                      + (if !calls.tombstoneOk then [Trouble(m.id, "recycle")] else []))
  }

  /** Writes the memory back as it was read, with the new tier. */
  function PromoteOne(u: Upkeep, m: MemoryItem, calls: UpkeepCalls, now: nat): Upkeep {
    if !calls.putOk then u.(troubles := u.troubles + [Trouble(m.id, "promote")])
    else
      var st := u.store.(rows := Put(u.store.rows, m.(tier := Long)));
      u.(store := AppendIf(st, calls.appendOk, "promote", Text(Join([m.id, "Long"], TAB)), now),
         promoted := u.promoted + 1)
  }

  function UpkeepOne(u: Upkeep, m: MemoryItem, verdict: Verdict, calls: UpkeepCalls, now: nat): Upkeep {
    match verdict
    case Recycle => RecycleOne(u, m, calls, now)
    case Promote => if m.tier == Short then PromoteOne(u, m, calls, now) else u
    case Leave => u
  }

  /** The first `n` changed memories of the first consolidation phase. */
  function UpkeepPass(st: Store, changed: seq<MemoryItem>, verdicts: seq<Verdict>, calls: seq<UpkeepCalls>, now: nat,
                      n: nat): Upkeep
    requires n <= |changed| == |verdicts| == |calls|
    decreases n
  {
    if n == 0 then Upkeep(st, 0, 0, [])
    else
      UpkeepOne(UpkeepPass(st, changed, verdicts, calls, now, n - 1), changed[n - 1], verdicts[n - 1], calls[n - 1],
                now)
  }

  // ---------------------------------------------------------------- merge

  const SIM_THRESHOLD: real := 0.92

  /** How the calls of one merge attempt turn out. */
  datatype Backend = Backend(tombstoneOk: bool, deleteOk: bool, recordOk: bool, untombstoneOk: bool,
                             reinsertOk: bool, appendOk: bool)

  /** An answer of the nearest-neighbour search, with what happens should it be merged into. */
  datatype Hit = Hit(vecId: nat, sim: real, backend: Backend)

  /** `hits` is `None` when the search itself fails. */
  datatype SourceRun = SourceRun(getOk: bool, hits: Option<seq<Hit>>)

  /** The search only answers ids that are present. */
  function Present(hits: seq<Hit>, vectors: Vectors): seq<Hit> {
    if hits == [] then []
    else (if hits[0].vecId in vectors then [hits[0]] else []) + Present(hits[1..], vectors)
  }

  /** The lookup from vector id to row that a pass builds once, later rows winning. */
  function IndexByRef(all: seq<MemoryItem>): map<nat, MemoryItem> {
    if all == [] then map[]
    else
      var last := all[|all| - 1];
      var index := IndexByRef(all[..|all| - 1]);
      if Ref(last).Some? then index[Ref(last).value := last] else index
  }

  predicate SharesEntity(a: MemoryItem, b: MemoryItem) {
    exists e :: e in a.entities && e in b.entities
  }

  predicate Eligible(src: MemoryItem, vr: nat, hit: Hit, index: map<nat, MemoryItem>) {
    && hit.sim >= SIM_THRESHOLD && hit.vecId != vr && hit.vecId in index
    && !index[hit.vecId].tombstone && index[hit.vecId].id != src.id && SharesEntity(src, index[hit.vecId])
  }

  /** Tombstone, delete the vector, record; if recording fails, undo both. */
  function MergeInto(st: Store, src: string, vr: nat, vec: Vector, tgt: string, b: Backend, at: nat): (Store, bool) {
    var st1 := st.(rows := WithTombstone(st.rows, src, true));
    var st2 := if b.deleteOk then st1.(vectors := st1.vectors - {vr}) else st1;
    if !b.recordOk then
      var st3 := if b.untombstoneOk then st2.(rows := WithTombstone(st2.rows, src, false)) else st2;
      (if b.reinsertOk then st3.(vectors := InsertVector(st3.vectors, vr, vec)) else st3, false)
    else
      var fact := MergeFact(src, tgt, MERGE_REASON, at);
      var st3 := st2.(merges := st2.merges + [MergeRow(st2.nextMergeId, fact)], nextMergeId := st2.nextMergeId + 1);
      var payload := Text(Join([src, tgt, MERGE_REASON, Decimal(at)], TAB));
      (if b.appendOk then AppendWop(st3, "merge", payload, at) else st3, true)
  }

  /** Goes through the hits in order; the first one merged into, or half merged into, is the last. */
  function TryHits(st: Store, src: MemoryItem, vr: nat, vec: Vector, hits: seq<Hit>, index: map<nat, MemoryItem>,
                   at: nat): (Store, bool, seq<Trouble>)
    decreases |hits|
  {
    if hits == [] then (st, false, [])
    else if !Eligible(src, vr, hits[0], index) then TryHits(st, src, vr, vec, hits[1..], index, at)
    else if !hits[0].backend.tombstoneOk then
      var (st', merged, troubles) := TryHits(st, src, vr, vec, hits[1..], index, at);
      (st', merged, [Trouble(src.id, "merge")] + troubles)
    else
      var (st', merged) := MergeInto(st, src.id, vr, vec, index[hits[0].vecId].id, hits[0].backend, at);
      (st', merged, if merged then [] else [Trouble(src.id, "merge-log")])
  }

  /** `aborted` is set when a search fails, which ends the pass. */
  datatype Pass = Pass(store: Store, merged: nat, troubles: seq<Trouble>, aborted: bool)

  predicate IsSource(src: MemoryItem, run: SourceRun, vectors: Vectors) {
    src.memoryType == Semantic && !src.tombstone && Ref(src).Some? && run.getOk && Ref(src).value in vectors
  }

  function MergeSource(p: Pass, src: MemoryItem, run: SourceRun, index: map<nat, MemoryItem>, at: nat): Pass {
    if p.aborted || !IsSource(src, run, p.store.vectors) then p
    else if run.hits.None? then p.(aborted := true)
    else
      var vr := Ref(src).value;
      var (st, merged, troubles) := TryHits(p.store, src, vr, p.store.vectors[vr],
                                            Present(run.hits.value, p.store.vectors), index, at);
      Pass(st, if merged then p.merged + 1 else p.merged, p.troubles + troubles, false)
  }

  /** The first `n` changed memories of a merge pass. */
  function MergePass(st: Store, changed: seq<MemoryItem>, runs: seq<SourceRun>, index: map<nat, MemoryItem>, at: nat,
                     n: nat): Pass
    requires n <= |changed| == |runs|
    decreases n
  {
    if n == 0 then Pass(st, 0, [], false)
    else MergeSource(MergePass(st, changed, runs, index, at, n - 1), changed[n - 1], runs[n - 1], index, at)
  }

  // ---------------------------------------------------------------- late extraction

  /** A memory that waits for its entities has none. */
  predicate PendingEmpty(m: MemoryItem) {
    m.entitiesPending ==> m.entities == []
  }

  /** `entities` is `None` without an extractor or when it does not succeed. */
  datatype ExtractRun = ExtractRun(entities: Option<seq<string>>, putOk: bool, appendOk: bool)

  datatype Reextract = Reextract(store: Store, count: nat, troubles: seq<Trouble>)

  /** Late extraction is tried, succeeds and is written. */
  predicate Rewrites(m: MemoryItem, run: ExtractRun) {
    m.entitiesPending && run.entities.Some? && run.putOk
  }

  function WithEntities(m: MemoryItem, entities: seq<string>): MemoryItem {
    m.(entities := entities, entitiesPending := false)
  }

  /** Writes the memory back as the first phase read it, with its new entities. */
  function ReextractOne(x: Reextract, m: MemoryItem, run: ExtractRun, now: nat): Reextract {
    if !m.entitiesPending || run.entities.None? then x
    else if !run.putOk then x.(troubles := x.troubles + [Trouble(m.id, "reextract")])
    else
      var item := WithEntities(m, run.entities.value);
      var st := x.store.(rows := Put(x.store.rows, item));
      x.(store := AppendIf(st, run.appendOk, "reextract", Bare(item), now), count := x.count + 1)
  }

  /** The first `n` changed memories of the late extraction. */
  function ReextractPass(st: Store, changed: seq<MemoryItem>, runs: seq<ExtractRun>, now: nat, n: nat): Reextract
    requires n <= |changed| == |runs|
    decreases n
  {
    if n == 0 then Reextract(st, 0, [])
    else ReextractOne(ReextractPass(st, changed, runs, now, n - 1), changed[n - 1], runs[n - 1], now)
  }

  // ---------------------------------------------------------------- reconcile

  /** What a run looks at: one tenant's live rows, as far as the namespace filter shows them. */
  datatype Scope = Scope(tenant: string, filter: Namespace.Filter)

  predicate Sees(scope: Scope, m: MemoryItem) {
    Namespace.InScope(m, scope.tenant, scope.filter)
  }

  /** `stuck` vectors cannot be deleted, `locked` rows cannot be removed, and each of the four listings may fail (the
      one of rows in scope also for an unknown namespace). */
  datatype ReconcileRun = ReconcileRun(stuck: set<nat>, locked: set<string>, rowsListed: bool, vectorsListed: bool,
                                       mergesListed: bool, tombsListed: bool)

  const NO_TROUBLE := ReconcileRun({}, {}, true, true, true, true)

  function LiveRefs(rows: Rows, scope: Scope): set<nat> {
    set id | id in rows && Sees(scope, rows[id]) && Ref(rows[id]).Some? :: Ref(rows[id]).value
  }

  function Sources(merges: seq<MergeRow>): set<string> {
    set m | m in merges :: m.fact.sourceId
  }

  /** Stored vectors that no listed live row refers to. */
  function Orphans(st: Store, scope: Scope, run: ReconcileRun): set<nat> {
    if run.vectorsListed then st.vectors.Keys - LiveRefs(st.rows, scope) - run.stuck else {}
  }

  /** Tombstoned rows, apart from merge sources, whose vector can be deleted. */
  function RemovableRows(rows: Rows, kept: set<string>, stuck: set<nat>): set<string> {
    set id | id in rows && rows[id].tombstone && id !in kept && Ref(rows[id]).Some? && Ref(rows[id]).value !in stuck
  }

  function Removable(st: Store, run: ReconcileRun): set<string> {
    RemovableRows(st.rows, if run.mergesListed then Sources(st.merges) else {}, run.stuck)
  }

  function RefsOf(rows: Rows, ids: set<string>): set<nat> {
    set id | id in ids && id in rows && Ref(rows[id]).Some? :: Ref(rows[id]).value
  }

  /** Cleans orphan vectors, then removes tombstoned rows; answers how many rows went. Without the rows in scope
      nothing is done, without the tombstoned rows only the vectors are cleaned. */
  function Reconcile(st: Store, scope: Scope, run: ReconcileRun): (Store, Result<nat, string>) {
    var cleaned := st.(vectors := st.vectors - Orphans(st, scope, run));
    var removable := Removable(st, run);
    var gone := removable - run.locked;
    if !run.rowsListed then (st, Err("list_all"))
    else if !run.tombsListed then (cleaned, Err("list_tombstoned"))
    else
      (cleaned.(vectors := cleaned.vectors - RefsOf(st.rows, removable), rows := st.rows - gone), Ok(|gone|))
  }

  // ---------------------------------------------------------------- unmerge

  datatype UnmergeCalls = UnmergeCalls(rowOk: bool, vectorOk: bool, embedding: Option<Vector>, insertOk: bool,
                                       putOk: bool)

  function WithoutMerge(merges: seq<MergeRow>, id: nat): seq<MergeRow> {
    if merges == [] then []
    else (if merges[0].id == id then [] else [merges[0]]) + WithoutMerge(merges[1..], id)
  }

  function FindMerge(merges: seq<MergeRow>, id: nat): Option<MergeFact> {
    if merges == [] then None
    else if merges[0].id == id then Some(merges[0].fact)
    else FindMerge(merges[1..], id)
  }

  /** The merge-log row goes first; then the vector is rebuilt and the row written back live. `Ok(false)` is
      an unknown merge or a source that no longer exists, `Err` a failed call. */
  function Unmerge(st: Store, mergeId: nat, calls: UnmergeCalls): (Store, Result<bool, string>) {
    match FindMerge(st.merges, mergeId)
    case None => (st, Ok(false))
    case Some(fact) =>
      var st1 := st.(merges := WithoutMerge(st.merges, mergeId));
      var src := fact.sourceId;
      if !calls.rowOk then (st1, Err("get"))
      else if src !in st1.rows then (st1, Ok(false))
      else
        var item := st1.rows[src].(tombstone := false);
        var ref := Ref(item);
        var rebuild := ref.Some? && ref.value !in st1.vectors;
        if ref.Some? && !calls.vectorOk then (st1, Err("vector"))
        else if rebuild && calls.embedding.None? then (st1, Err("embed"))
        else if rebuild && !calls.insertOk then (st1, Err("insert"))
        else
          var st2 := if rebuild
                     then st1.(vectors := InsertVector(st1.vectors, ref.value, calls.embedding.value)) else st1;
          if calls.putOk then (st2.(rows := st2.rows[src := item]), Ok(true)) else (st2, Err("put"))
  }
}
