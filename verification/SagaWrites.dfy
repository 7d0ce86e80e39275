/** What the phases of a consolidation that write memories back leave behind, memory by memory: rows, vectors, log
    entries in order, and reports of failed calls. */
module SagaWrites {
  import opened Basics
  import opened TextFormat
  import opened Items
  import opened Saga
  import opened SagaConsolidate

  // ---------------------------------------------------------------- recycle and promote

  /** The memory is recycled, or is short-lived and promoted, and that could be logged. */
  predicate TendLogged(m: MemoryItem, verdict: Verdict, c: UpkeepCalls) {
    c.appendOk && (verdict == Recycle || (verdict == Promote && m.tier == Short && c.putOk))
  }

  function TendEntry(m: MemoryItem, verdict: Verdict, seqNo: int, now: nat): WopEntry {
    if verdict == Recycle then WopEntry(seqNo, "recycle", Text(m.id), now)
    else WopEntry(seqNo, "promote", Text(m.id + [TAB] + "Long"), now)
  }

  /** How many entries the first `n` memories bring. */
  function TendEntries(changed: seq<MemoryItem>, verdicts: seq<Verdict>, calls: seq<UpkeepCalls>, n: nat): nat
    requires n <= |changed| == |verdicts| == |calls|
  {
    if n == 0 then 0
    else
      TendEntries(changed, verdicts, calls, n - 1)
      + if TendLogged(changed[n - 1], verdicts[n - 1], calls[n - 1]) then 1 else 0
  }

  lemma TendLogs(u: Upkeep, m: MemoryItem, verdict: Verdict, c: UpkeepCalls, now: nat)
    ensures var st' := UpkeepOne(u, m, verdict, c, now).store;
            && st'.wops == u.store.wops + (if TendLogged(m, verdict, c)
                                           then [TendEntry(m, verdict, u.store.lastSeq + 1, now)] else [])
            && st'.lastSeq == u.store.lastSeq + (if TendLogged(m, verdict, c) then 1 else 0)
  {
    JoinFirst(m.id, ["Long"], TAB);
    assert [m.id] + ["Long"] == [m.id, "Long"];
    assert u.store.wops + [] == u.store.wops;
  }

  /** A log longer by as many entries. */
  ghost predicate LongerBy(st: Store, st': Store, count: nat) {
    st.wops <= st'.wops && |st'.wops| == |st.wops| + count && st'.lastSeq == st.lastSeq + count
  }

  /** What memory `i` brings is in the log after what those before it bring. */
  ghost predicate TendInPlace(st: Store, wops: seq<WopEntry>, changed: seq<MemoryItem>, verdicts: seq<Verdict>,
                              calls: seq<UpkeepCalls>, now: nat, i: nat)
    requires i < |changed| == |verdicts| == |calls|
  {
    var k := TendEntries(changed, verdicts, calls, i);
    TendLogged(changed[i], verdicts[i], calls[i]) ==>
      |st.wops| + k < |wops| && wops[|st.wops| + k] == TendEntry(changed[i], verdicts[i], st.lastSeq + k + 1, now)
  }

  lemma TendStaysInPlace(st: Store, wops: seq<WopEntry>, more: seq<WopEntry>, changed: seq<MemoryItem>,
                         verdicts: seq<Verdict>, calls: seq<UpkeepCalls>, now: nat, i: nat)
    requires i < |changed| == |verdicts| == |calls| && wops <= more
    requires TendInPlace(st, wops, changed, verdicts, calls, now, i)
    ensures TendInPlace(st, more, changed, verdicts, calls, now, i)
  {
  }

  lemma TendPutsInPlace(st: Store, changed: seq<MemoryItem>, verdicts: seq<Verdict>, calls: seq<UpkeepCalls>, now: nat,
                        n: nat)
    requires n < |changed| == |verdicts| == |calls|
    requires LongerBy(st, UpkeepPass(st, changed, verdicts, calls, now, n).store,
                      TendEntries(changed, verdicts, calls, n))
    ensures var before := UpkeepPass(st, changed, verdicts, calls, now, n).store;
            var after := UpkeepPass(st, changed, verdicts, calls, now, n + 1).store;
            && before.wops <= after.wops && LongerBy(st, after, TendEntries(changed, verdicts, calls, n + 1))
            && TendInPlace(st, after.wops, changed, verdicts, calls, now, n)
  {
    TendLogs(UpkeepPass(st, changed, verdicts, calls, now, n), changed[n], verdicts[n], calls[n], now);
  }

  lemma {:induction false} UpkeepLengthens(st: Store, changed: seq<MemoryItem>, verdicts: seq<Verdict>,
                                           calls: seq<UpkeepCalls>, now: nat, n: nat)
    requires n <= |changed| == |verdicts| == |calls|
    ensures LongerBy(st, UpkeepPass(st, changed, verdicts, calls, now, n).store,
                     TendEntries(changed, verdicts, calls, n))
    decreases n
  {
    if n > 0 {
      UpkeepLengthens(st, changed, verdicts, calls, now, n - 1);
      TendPutsInPlace(st, changed, verdicts, calls, now, n - 1);
    }
  }

  /** The first phase logs exactly the memories it recycled or promoted, as far as the log can be appended to, in order
      and numbered on. */
  lemma {:induction false} UpkeepLogs(st: Store, changed: seq<MemoryItem>, verdicts: seq<Verdict>,
                                      calls: seq<UpkeepCalls>, now: nat, n: nat, i: nat)
    requires i < n <= |changed| == |verdicts| == |calls|
    ensures var st' := UpkeepPass(st, changed, verdicts, calls, now, n).store;
            && LongerBy(st, st', TendEntries(changed, verdicts, calls, n))
            && TendInPlace(st, st'.wops, changed, verdicts, calls, now, i)
    decreases n
  {
    UpkeepLengthens(st, changed, verdicts, calls, now, n - 1);
    TendPutsInPlace(st, changed, verdicts, calls, now, n - 1);
    if i < n - 1 {
      UpkeepLogs(st, changed, verdicts, calls, now, n - 1, i);
      TendStaysInPlace(st, UpkeepPass(st, changed, verdicts, calls, now, n - 1).store.wops,
                       UpkeepPass(st, changed, verdicts, calls, now, n).store.wops, changed, verdicts, calls, now, i);
    }
  }

  /** The memory's vector is deleted with it. */
  predicate TakesVector(m: MemoryItem, verdict: Verdict, c: UpkeepCalls, v: nat) {
    verdict == Recycle && c.deleteOk && ParseU64(m.vectorRef) == Some(v)
  }

  lemma TendVector(u: Upkeep, m: MemoryItem, verdict: Verdict, c: UpkeepCalls, now: nat, v: nat)
    ensures var st' := UpkeepOne(u, m, verdict, c, now).store;
            && st'.merges == u.store.merges
            && (v in st'.vectors <==> v in u.store.vectors && !TakesVector(m, verdict, c, v))
            && (v in st'.vectors ==> st'.vectors[v] == u.store.vectors[v])
  {
  }

  /** The first phase takes away exactly the vectors of recycled memories, as far as they can be deleted, and touches
      neither the other vectors nor the merge log. */
  lemma {:induction false} UpkeepVectors(st: Store, changed: seq<MemoryItem>, verdicts: seq<Verdict>,
                                         calls: seq<UpkeepCalls>, now: nat, n: nat, v: nat)
    requires n <= |changed| == |verdicts| == |calls|
    ensures var st' := UpkeepPass(st, changed, verdicts, calls, now, n).store;
            && st'.merges == st.merges
            && (v in st'.vectors <==> && v in st.vectors
                                      && forall i | 0 <= i < n :: !TakesVector(changed[i], verdicts[i], calls[i], v))
            && (v in st'.vectors ==> st'.vectors[v] == st.vectors[v])
    decreases n
  {
    if n > 0 {
      UpkeepVectors(st, changed, verdicts, calls, now, n - 1, v);
      TendVector(UpkeepPass(st, changed, verdicts, calls, now, n - 1), changed[n - 1], verdicts[n - 1], calls[n - 1],
                 now, v);
    }
  }

  /** How many calls fail for a memory to be recycled: the deletion of its vector, and its tombstone. */
  function RecycleFailures(m: MemoryItem, verdict: Verdict, c: UpkeepCalls): nat {
    if verdict != Recycle then 0
    else (if ParseU64(m.vectorRef).Some? && !c.deleteOk then 1 else 0) + (if !c.tombstoneOk then 1 else 0)
  }

  function AllRecycleFailures(changed: seq<MemoryItem>, verdicts: seq<Verdict>, calls: seq<UpkeepCalls>, n: nat): nat
    requires n <= |changed| == |verdicts| == |calls|
  {
    if n == 0 then 0
    else
      AllRecycleFailures(changed, verdicts, calls, n - 1)
      + RecycleFailures(changed[n - 1], verdicts[n - 1], calls[n - 1])
  }

  lemma RecycleReports(u: Upkeep, m: MemoryItem, c: UpkeepCalls, now: nat, stage: string)
    requires stage == "recycle"
    ensures Stages(RecycleOne(u, m, c, now).troubles, stage)
            == Stages(u.troubles, stage) + RecycleFailures(m, Recycle, c)
  {
    var t := Trouble(m.id, "recycle");
    var first := if Ref(m).Some? && !c.deleteOk then [t] else [];
    assert u.troubles + [] == u.troubles && u.troubles + first + [] == u.troubles + first;
    OneStage(u.troubles, t, stage);
    OneStage(u.troubles + first, t, stage);
  }

  lemma PromoteReportsNoOther(u: Upkeep, m: MemoryItem, c: UpkeepCalls, now: nat, stage: string)
    requires stage != "promote"
    ensures Stages(PromoteOne(u, m, c, now).troubles, stage) == Stages(u.troubles, stage)
  {
    OneStage(u.troubles, Trouble(m.id, "promote"), stage);
  }

  lemma TendReports(u: Upkeep, m: MemoryItem, verdict: Verdict, c: UpkeepCalls, now: nat, stage: string)
    requires stage == "recycle"
    ensures Stages(UpkeepOne(u, m, verdict, c, now).troubles, stage)
            == Stages(u.troubles, stage) + RecycleFailures(m, verdict, c)
  {
    if verdict == Recycle {
      RecycleReports(u, m, c, now, stage);
    } else {
      PromoteReportsNoOther(u, m, c, now, stage);
    }
  }

  /** Each of them is reported once. */
  lemma {:induction false} RecycleFailuresReported(st: Store, changed: seq<MemoryItem>, verdicts: seq<Verdict>,
                                                   calls: seq<UpkeepCalls>, now: nat, n: nat, stage: string)
    requires n <= |changed| == |verdicts| == |calls| && stage == "recycle"
    ensures Stages(UpkeepPass(st, changed, verdicts, calls, now, n).troubles, stage)
            == AllRecycleFailures(changed, verdicts, calls, n)
    decreases n
  {
    if n > 0 {
      RecycleFailuresReported(st, changed, verdicts, calls, now, n - 1, stage);
      TendReports(UpkeepPass(st, changed, verdicts, calls, now, n - 1), changed[n - 1], verdicts[n - 1], calls[n - 1],
                  now, stage);
    }
  }

  // ---------------------------------------------------------------- late extraction

  /** The memory waited for its entities, they were found, and it could be written back. */
  predicate Extracted(m: MemoryItem, run: ExtractRun) {
    m.entitiesPending && run.entities.Some? && run.putOk
  }

  /** The memory as it was read, with these entities and no longer waiting. */
  predicate HasEntities(m: MemoryItem, read: MemoryItem, entities: seq<string>) {
    && m.entities == entities && !m.entitiesPending
    && m.(entities := read.entities, entitiesPending := read.entitiesPending) == read
  }

  function ExtractEntries(changed: seq<MemoryItem>, runs: seq<ExtractRun>, n: nat): nat
    requires n <= |changed| == |runs|
  {
    if n == 0 then 0
    else
      ExtractEntries(changed, runs, n - 1)
      + if Extracted(changed[n - 1], runs[n - 1]) && runs[n - 1].appendOk then 1 else 0
  }

  lemma ExtractOne(x: Reextract, m: MemoryItem, run: ExtractRun, now: nat)
    ensures var x' := ReextractOne(x, m, run, now);
            && x'.store.vectors == x.store.vectors && x'.store.merges == x.store.merges
            && (!Extracted(m, run) ==> x'.store == x.store && x'.count == x.count)
            && (Extracted(m, run) ==>
                  && x'.count == x.count + 1 && m.id in x'.store.rows
                  && HasEntities(x'.store.rows[m.id], m, run.entities.value)
                  && x'.store.rows == x.store.rows[m.id := x'.store.rows[m.id]]
                  && x'.store.lastSeq == x.store.lastSeq + (if run.appendOk then 1 else 0)
                  && x'.store.wops == x.store.wops
                                      + if run.appendOk then [WopEntry(x.store.lastSeq + 1, "reextract",
                                                                       Bare(x'.store.rows[m.id]), now)] else [])
  {
    assert x.store.wops + [] == x.store.wops;
  }

  /** The last write to a memory's row was its own. */
  lemma {:induction false} ExtractedRow(st: Store, changed: seq<MemoryItem>, runs: seq<ExtractRun>, now: nat, n: nat,
                                        i: nat)
    requires i < n <= |changed| == |runs| && DistinctIds(changed)
    ensures var rows, m := ReextractPass(st, changed, runs, now, n).store.rows, changed[i];
            if Extracted(m, runs[i]) then m.id in rows && HasEntities(rows[m.id], m, runs[i].entities.value)
            else (m.id in rows <==> m.id in st.rows) && (m.id in rows ==> rows[m.id] == st.rows[m.id])
    decreases n
  {
    var x := ReextractPass(st, changed, runs, now, n - 1);
    ExtractOne(x, changed[n - 1], runs[n - 1], now);
    if i < n - 1 {
      ExtractedRow(st, changed, runs, now, n - 1, i);
    } else {
      NotYetExtracted(st, changed, runs, now, i, changed[i].id);
    }
  }

  lemma {:induction false} NotYetExtracted(st: Store, changed: seq<MemoryItem>, runs: seq<ExtractRun>, now: nat, n: nat,
                                           id: string)
    requires n <= |changed| == |runs| && forall i | 0 <= i < n :: changed[i].id != id
    ensures var rows := ReextractPass(st, changed, runs, now, n).store.rows;
            (id in rows <==> id in st.rows) && (id in rows ==> rows[id] == st.rows[id])
    decreases n
  {
    if n > 0 {
      NotYetExtracted(st, changed, runs, now, n - 1, id);
      ExtractOne(ReextractPass(st, changed, runs, now, n - 1), changed[n - 1], runs[n - 1], now);
    }
  }

  /** The entry for memory `i` is in the log after those for the memories before it, and holds the memory with its
      entities. */
  ghost predicate ExtractInPlace(st: Store, wops: seq<WopEntry>, changed: seq<MemoryItem>, runs: seq<ExtractRun>,
                                 now: nat, i: nat)
    requires i < |changed| == |runs|
  {
    var k := ExtractEntries(changed, runs, i);
    Extracted(changed[i], runs[i]) && runs[i].appendOk ==>
      && |st.wops| + k < |wops|
      && var e := wops[|st.wops| + k];
         && e.seqNo == st.lastSeq + k + 1 && e.op == "reextract" && e.at == now && e.payload.Bare?
         && HasEntities(e.payload.item, changed[i], runs[i].entities.value)
  }

  lemma ExtractStaysInPlace(st: Store, wops: seq<WopEntry>, more: seq<WopEntry>, changed: seq<MemoryItem>,
                            runs: seq<ExtractRun>, now: nat, i: nat)
    requires i < |changed| == |runs| && wops <= more && ExtractInPlace(st, wops, changed, runs, now, i)
    ensures ExtractInPlace(st, more, changed, runs, now, i)
  {
  }

  lemma ExtractPutsInPlace(st: Store, changed: seq<MemoryItem>, runs: seq<ExtractRun>, now: nat, n: nat)
    requires n < |changed| == |runs|
    requires LongerBy(st, ReextractPass(st, changed, runs, now, n).store, ExtractEntries(changed, runs, n))
    ensures var before, after := ReextractPass(st, changed, runs, now, n).store,
                                 ReextractPass(st, changed, runs, now, n + 1).store;
            && before.wops <= after.wops && LongerBy(st, after, ExtractEntries(changed, runs, n + 1))
            && ExtractInPlace(st, after.wops, changed, runs, now, n)
  {
    ExtractOne(ReextractPass(st, changed, runs, now, n), changed[n], runs[n], now);
  }

  lemma {:induction false} ExtractLengthens(st: Store, changed: seq<MemoryItem>, runs: seq<ExtractRun>, now: nat,
                                            n: nat)
    requires n <= |changed| == |runs|
    ensures LongerBy(st, ReextractPass(st, changed, runs, now, n).store, ExtractEntries(changed, runs, n))
    decreases n
  {
    if n > 0 {
      ExtractLengthens(st, changed, runs, now, n - 1);
      ExtractPutsInPlace(st, changed, runs, now, n - 1);
    }
  }

  lemma {:induction false} ExtractLogs(st: Store, changed: seq<MemoryItem>, runs: seq<ExtractRun>, now: nat, n: nat,
                                       i: nat)
    requires i < n <= |changed| == |runs|
    ensures ExtractInPlace(st, ReextractPass(st, changed, runs, now, n).store.wops, changed, runs, now, i)
    decreases n
  {
    ExtractLengthens(st, changed, runs, now, n - 1);
    ExtractPutsInPlace(st, changed, runs, now, n - 1);
    if i < n - 1 {
      ExtractLogs(st, changed, runs, now, n - 1, i);
      ExtractStaysInPlace(st, ReextractPass(st, changed, runs, now, n - 1).store.wops,
                          ReextractPass(st, changed, runs, now, n).store.wops, changed, runs, now, i);
    }
  }

  /** A memory whose late extraction succeeds and can be written ends with the extractor's entities, waits no longer,
      and is otherwise as it was read, in its row and, if the log can be appended to, in one entry of the log. All
      other rows stay as they are. */
  lemma ExtractedInRowAndLog(st: Store, changed: seq<MemoryItem>, runs: seq<ExtractRun>, now: nat, i: nat)
    requires i < |changed| == |runs| && DistinctIds(changed)
    ensures var st', m := ReextractPass(st, changed, runs, now, |changed|).store, changed[i];
            && (if Extracted(m, runs[i]) then m.id in st'.rows && HasEntities(st'.rows[m.id], m, runs[i].entities.value)
                else (m.id in st'.rows <==> m.id in st.rows) && (m.id in st'.rows ==> st'.rows[m.id] == st.rows[m.id]))
            && LongerBy(st, st', ExtractEntries(changed, runs, |changed|))
            && ExtractInPlace(st, st'.wops, changed, runs, now, i)
  {
    ExtractedRow(st, changed, runs, now, |changed|, i);
    ExtractLengthens(st, changed, runs, now, |changed|);
    ExtractLogs(st, changed, runs, now, |changed|, i);
  }
}
