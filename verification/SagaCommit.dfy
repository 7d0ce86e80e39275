/** Commit is all or nothing per turn, for every pattern of failing calls. */
module SagaCommit {
  import opened Basics
  import opened TextFormat
  import opened Items
  import opened Saga

  predicate Succeeds(run: TurnRun) {
    run.embedding.Some? && run.insertOk && run.persistOk
  }

  /** The one way a failed turn leaves something: the transaction fails and so does taking the vector out. */
  predicate LeavesVector(run: TurnRun) {
    run.embedding.Some? && run.insertOk && !run.persistOk && !run.cleanOk
  }

  /** Ids and vector ids are newly drawn. */
  ghost predicate Fresh(st: Store, runs: seq<TurnRun>) {
    && (forall i | 0 <= i < |runs| :: runs[i].id !in st.rows && runs[i].vecId !in st.vectors)
    && (forall i, j | 0 <= i < j < |runs| :: runs[i].id != runs[j].id && runs[i].vecId != runs[j].vecId)
  }

  /** The memory holds the turn, with these entities. */
  predicate IsTurnRow(m: MemoryItem, x: Interaction, turn: Turn, run: TurnRun, now: nat, entities: seq<string>,
                      pending: bool)
  {
    && m.id == run.id && m.vectorRef == Decimal(run.vecId) && m.content == turn.content
    && m.interactionId == x.id && m.sessionId == x.session && m.tenant == x.tenant
    && m.namespace == x.namespace && m.namespaceKey == x.namespaceKey
    && m.memoryType == Episodic && m.tier == Working && !m.tombstone
    && m.accessCount == 0 && m.created == m.lastAccessed == now
    && m.entities == entities && m.entitiesPending == pending
  }

  /** Row and vector are stored. The row ends with what the extractor found, and waits for it exactly when there is no
      extractor or it failed. */
  ghost predicate TurnDone(st: Store, x: Interaction, turn: Turn, run: TurnRun, now: nat) {
    && run.embedding.Some? && run.vecId in st.vectors && st.vectors[run.vecId] == run.embedding.value
    && run.id in st.rows
    && match run.attached
       case None => IsTurnRow(st.rows[run.id], x, turn, run, now, [], true)
       case Some((entities, success)) => IsTurnRow(st.rows[run.id], x, turn, run, now, entities, !success)
  }

  /** The log entry of a stored turn: its row without entities, and its vector. */
  predicate IsTurnEntry(e: WopEntry, x: Interaction, turn: Turn, run: TurnRun, now: nat) {
    && e.op == "commit" && e.at == now && e.payload.Envelope? && e.payload.vector == run.embedding
    && IsTurnRow(e.payload.item, x, turn, run, now, [], true)
  }

  /** The turn is reported with the stage that failed. */
  predicate IsTurnFailure(f: TurnFailure, turn: Turn, run: TurnRun) {
    && f.turnIdx == turn.turnIdx
    && f.stage == if run.embedding.None? then "embed" else if !run.insertOk then "insert_vector" else "persist"
  }

  ghost predicate TurnAbsent(st: Store, run: TurnRun) {
    run.id !in st.rows && (run.vecId in st.vectors <==> LeavesVector(run))
  }

  /** The turn is stored completely if its calls succeeded and not at all otherwise. */
  ghost predicate AllOrNothing(st: Store, x: Interaction, turn: Turn, run: TurnRun, now: nat) {
    if Succeeds(run) then TurnDone(st, x, turn, run, now) else TurnAbsent(st, run)
  }

  /** One turn on its own. */
  lemma TurnOutcome(st: Store, x: Interaction, turn: Turn, run: TurnRun, now: nat)
    requires run.id !in st.rows && run.vecId !in st.vectors
    ensures var (st', result) := CommitTurn(st, x, turn, run, now);
            (result.Ok? <==> Succeeds(run)) && AllOrNothing(st', x, turn, run, now)
  {
  }

  /** A turn touches no other row and no other vector. */
  lemma TurnFrame(st: Store, x: Interaction, turn: Turn, run: TurnRun, now: nat)
    ensures var st' := CommitTurn(st, x, turn, run, now).0;
            && st'.merges == st.merges
            && (forall id | id != run.id :: id in st'.rows <==> id in st.rows)
            && (forall id | id != run.id && id in st.rows :: st'.rows[id] == st.rows[id])
            && (forall v | v != run.vecId :: v in st'.vectors <==> v in st.vectors)
            && (forall v | v != run.vecId && v in st.vectors :: st'.vectors[v] == st.vectors[v])
  {
  }

  lemma {:induction false} CommitFrame(st: Store, x: Interaction, turns: seq<Turn>, runs: seq<TurnRun>, now: nat,
                                       n: nat)
    requires n <= |turns| == |runs| && Fresh(st, runs)
    ensures var st' := CommitTurns(st, x, turns, runs, now, n).store;
            && (forall id | id in st.rows :: id in st'.rows && st'.rows[id] == st.rows[id])
            && (forall v | v in st.vectors :: v in st'.vectors && st'.vectors[v] == st.vectors[v])
            && (forall i | n <= i < |runs| :: runs[i].id !in st'.rows && runs[i].vecId !in st'.vectors)
    decreases n
  {
    if n > 0 {
      CommitFrame(st, x, turns, runs, now, n - 1);
      TurnFrame(CommitTurns(st, x, turns, runs, now, n - 1).store, x, turns[n - 1], runs[n - 1], now);
    }
  }

  lemma CommitTurnsStep(st: Store, x: Interaction, turns: seq<Turn>, runs: seq<TurnRun>, now: nat, n: nat)
    requires 0 < n <= |turns| == |runs|
    ensures CommitTurns(st, x, turns, runs, now, n).store
            == CommitTurn(CommitTurns(st, x, turns, runs, now, n - 1).store, x, turns[n - 1], runs[n - 1], now).0
  {
  }

  lemma OutcomeCarries(st: Store, st': Store, x: Interaction, turn: Turn, run: TurnRun, now: nat)
    requires AllOrNothing(st, x, turn, run, now)
    requires run.id in st'.rows <==> run.id in st.rows
    requires run.id in st.rows ==> st'.rows[run.id] == st.rows[run.id]
    requires run.vecId in st'.vectors <==> run.vecId in st.vectors
    requires run.vecId in st.vectors ==> st'.vectors[run.vecId] == st.vectors[run.vecId]
    ensures AllOrNothing(st', x, turn, run, now)
  {
  }

  lemma {:induction false} CommitTurnsDone(st: Store, x: Interaction, turns: seq<Turn>, runs: seq<TurnRun>, now: nat,
                                           n: nat, i: nat)
    requires i < n <= |turns| == |runs| && Fresh(st, runs)
    ensures AllOrNothing(CommitTurns(st, x, turns, runs, now, n).store, x, turns[i], runs[i], now)
    decreases n
  {
    var before := CommitTurns(st, x, turns, runs, now, n - 1).store;
    CommitTurnsStep(st, x, turns, runs, now, n);
    if i == n - 1 {
      CommitFrame(st, x, turns, runs, now, n - 1);
      TurnOutcome(before, x, turns[i], runs[i], now);
    } else {
      CommitTurnsDone(st, x, turns, runs, now, n - 1, i);
      TurnFrame(before, x, turns[n - 1], runs[n - 1], now);
      OutcomeCarries(before, CommitTurns(st, x, turns, runs, now, n).store, x, turns[i], runs[i], now);
    }
  }

  /** What one turn adds to the lists. */
  lemma TurnLists(st: Store, x: Interaction, turn: Turn, run: TurnRun, now: nat)
    ensures var (st', result) := CommitTurn(st, x, turn, run, now);
            if Succeeds(run) then
              && result == Ok(run.id) && st'.lastSeq == st.lastSeq + 1
              && |st'.wops| == |st.wops| + 1 && st.wops <= st'.wops
              && st'.wops[|st.wops|].seqNo == st.lastSeq + 1 && IsTurnEntry(st'.wops[|st.wops|], x, turn, run, now)
            else
              && result.Err? && IsTurnFailure(result.error, turn, run)
              && st'.lastSeq == st.lastSeq && st'.wops == st.wops
  {
  }

  /** How many of the first `n` turns are stored. */
  function Stored(runs: seq<TurnRun>, n: nat): (k: nat)
    requires n <= |runs|
    ensures k <= n
  {
    if n == 0 then 0 else Stored(runs, n - 1) + if Succeeds(runs[n - 1]) then 1 else 0
  }

  /** Turn `i` has its place in the lists: a stored one its id and its log entry after those of the stored turns before
      it, a failed one its report after those of the failed turns before it. */
  ghost predicate InPlace(st: Store, x: Interaction, turns: seq<Turn>, runs: seq<TurnRun>, now: nat,
                          result: CommitResult, i: nat)
    requires i < |turns| == |runs|
  {
    var k := Stored(runs, i);
    if Succeeds(runs[i]) then
      && k < |result.ids| && result.ids[k] == runs[i].id && |st.wops| + k < |result.store.wops|
      && result.store.wops[|st.wops| + k].seqNo == st.lastSeq + k + 1
      && IsTurnEntry(result.store.wops[|st.wops| + k], x, turns[i], runs[i], now)
    else i - k < |result.failed| && IsTurnFailure(result.failed[i - k], turns[i], runs[i])
  }

  /** The lists are as long as the turns demand. */
  ghost predicate Lengths(st: Store, runs: seq<TurnRun>, result: CommitResult, n: nat)
    requires n <= |runs|
  {
    && |result.ids| == Stored(runs, n) && |result.failed| == n - Stored(runs, n)
    && st.wops <= result.store.wops && |result.store.wops| == |st.wops| + Stored(runs, n)
    && result.store.lastSeq == st.lastSeq + Stored(runs, n)
  }

  /** One more turn only makes the lists longer. */
  ghost predicate Longer(a: CommitResult, b: CommitResult) {
    a.ids <= b.ids && a.failed <= b.failed && a.store.wops <= b.store.wops
  }

  lemma StaysInPlace(st: Store, x: Interaction, turns: seq<Turn>, runs: seq<TurnRun>, now: nat, a: CommitResult,
                     b: CommitResult, i: nat)
    requires i < |turns| == |runs| && InPlace(st, x, turns, runs, now, a, i) && Longer(a, b)
    ensures InPlace(st, x, turns, runs, now, b, i)
  {
  }

  lemma TurnInPlace(st: Store, x: Interaction, turns: seq<Turn>, runs: seq<TurnRun>, now: nat, n: nat)
    requires n < |turns| == |runs|
    requires Lengths(st, runs, CommitTurns(st, x, turns, runs, now, n), n)
    ensures var before, after := CommitTurns(st, x, turns, runs, now, n), CommitTurns(st, x, turns, runs, now, n + 1);
            && Lengths(st, runs, after, n + 1) && Longer(before, after)
            && InPlace(st, x, turns, runs, now, after, n)
  {
    TurnLists(CommitTurns(st, x, turns, runs, now, n).store, x, turns[n], runs[n], now);
  }

  lemma {:induction false} CommitLists(st: Store, x: Interaction, turns: seq<Turn>, runs: seq<TurnRun>, now: nat,
                                       n: nat)
    requires n <= |turns| == |runs|
    ensures var result := CommitTurns(st, x, turns, runs, now, n);
            Lengths(st, runs, result, n) && forall i | 0 <= i < n :: InPlace(st, x, turns, runs, now, result, i)
    decreases n
  {
    if n > 0 {
      CommitLists(st, x, turns, runs, now, n - 1);
      TurnInPlace(st, x, turns, runs, now, n - 1);
      forall i | 0 <= i < n - 1 ensures InPlace(st, x, turns, runs, now, CommitTurns(st, x, turns, runs, now, n), i) {
        StaysInPlace(st, x, turns, runs, now, CommitTurns(st, x, turns, runs, now, n - 1),
                     CommitTurns(st, x, turns, runs, now, n), i);
      }
    }
  }

  lemma {:induction false} CommitAddsOnly(st: Store, x: Interaction, turns: seq<Turn>, runs: seq<TurnRun>, now: nat,
                                          n: nat)
    requires n <= |turns| == |runs|
    ensures var st' := CommitTurns(st, x, turns, runs, now, n).store;
            && (forall id | id in st'.rows :: id in st.rows || exists i :: 0 <= i < n && runs[i].id == id)
            && (forall v | v in st'.vectors :: v in st.vectors || exists i :: 0 <= i < n && runs[i].vecId == v)
    decreases n
  {
    if n > 0 {
      CommitAddsOnly(st, x, turns, runs, now, n - 1);
    }
  }

  /** Each turn ends with its row, its vector and one log entry, or with none of them; a vector stays behind
      exactly when the transaction and the clean-up both failed. Nothing else changes, and ids, log entries and failed
      turns are those of the turns, in order. */
  lemma CommitAllOrNothing(st: Store, x: Interaction, turns: seq<Turn>, runs: seq<TurnRun>, now: nat)
    requires |turns| == |runs| && Fresh(st, runs)
    ensures var result := CommitTurns(st, x, turns, runs, now, |turns|);
            && (forall i | 0 <= i < |turns| :: AllOrNothing(result.store, x, turns[i], runs[i], now))
            && (forall id | id in st.rows :: id in result.store.rows && result.store.rows[id] == st.rows[id])
            && (forall id | id in result.store.rows :: id in st.rows || exists i :: 0 <= i < |runs| && runs[i].id == id)
            && (forall v | v in st.vectors :: v in result.store.vectors && result.store.vectors[v] == st.vectors[v])
            && (forall v | v in result.store.vectors ::
                  v in st.vectors || exists i :: 0 <= i < |runs| && runs[i].vecId == v)
            && Lengths(st, runs, result, |runs|)
            && (forall i | 0 <= i < |turns| :: InPlace(st, x, turns, runs, now, result, i))
  {
    CommitFrame(st, x, turns, runs, now, |turns|);
    CommitLists(st, x, turns, runs, now, |turns|);
    CommitAddsOnly(st, x, turns, runs, now, |turns|);
    forall i | 0 <= i < |turns|
      ensures AllOrNothing(CommitTurns(st, x, turns, runs, now, |turns|).store, x, turns[i], runs[i], now)
    {
      CommitTurnsDone(st, x, turns, runs, now, |turns|, i);
    }
  }
}
