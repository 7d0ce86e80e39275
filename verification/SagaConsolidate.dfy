/** Single deletions, and the first phase of a consolidation, which recycles and promotes. */
module SagaConsolidate {
  import opened Basics
  import opened TextFormat
  import opened Items
  import opened Saga
  import opened SagaMerge

  // ---------------------------------------------------------------- single deletions

  /** The same rows with the same ids and references. */
  ghost predicate SameRefs(rows: Rows, rows': Rows) {
    && rows'.Keys == rows.Keys
    && forall id | id in rows :: rows'[id].vectorRef == rows[id].vectorRef && rows'[id].id == rows[id].id
  }

  /** Tombstoning rows whose vectors are gone keeps everything a merge pass relies on. */
  lemma StaysGood(st: Store, st': Store)
    requires Good(st) && SameRefs(st.rows, st'.rows) && st'.vectors.Keys <= st.vectors.Keys
    requires forall id | id in st'.rows && st'.rows[id].tombstone && !st.rows[id].tombstone ::
               Ref(st'.rows[id]).Some? ==> Ref(st'.rows[id]).value !in st'.vectors
    ensures Good(st')
  {
    forall a, b | a in st'.rows && b in st'.rows && Ref(st'.rows[a]).Some? && Ref(st'.rows[a]) == Ref(st'.rows[b])
      ensures a == b
    {
      assert Ref(st.rows[a]) == Ref(st.rows[b]);
    }
    forall id | id in st'.rows && Ref(st'.rows[id]).Some? && Ref(st'.rows[id]).value in st'.vectors
      ensures !st'.rows[id].tombstone
    {
      assert Ref(st.rows[id]) == Ref(st'.rows[id]);
    }
  }

  /** So does tombstoning one row whose vector goes with it. */
  lemma TombstoneStaysGood(st: Store, st': Store, id: string)
    requires Good(st) && st'.vectors.Keys <= st.vectors.Keys && st'.rows == WithTombstone(st.rows, id, true)
    requires id in st.rows && Ref(st.rows[id]).Some? ==> Ref(st.rows[id]).value !in st'.vectors
    ensures Good(st') && SameRefs(st.rows, st'.rows)
  {
    StaysGood(st, st');
  }

  /** A delete goes vector first, then row, then log: whatever fails, it never leaves a tombstoned row with its
      vector. */
  lemma DeleteIsOrderly(st: Store, id: string, calls: DeleteCalls, now: nat)
    requires Good(st)
    ensures Good(Delete(st, id, calls, now).0)
  {
    var st' := Delete(st, id, calls, now).0;
    if st'.rows == st.rows {
      StaysGood(st, st');
    } else {
      TombstoneStaysGood(st, st', id);
    }
  }

  lemma DeleteTouchesOnly(st: Store, id: string, calls: DeleteCalls, now: nat)
    ensures var st' := Delete(st, id, calls, now).0;
            && st'.rows.Keys == st.rows.Keys && st'.merges == st.merges
            && (forall other | other != id && other in st.rows :: st'.rows[other] == st.rows[other])
            && (forall v | v in st.vectors && !(id in st.rows && Ref(st.rows[id]) == Some(v)) ::
                  v in st'.vectors && st'.vectors[v] == st.vectors[v])
  {
  }

  /** A delete succeeds exactly when the calls it makes do. Then the row is tombstoned, its vector gone and one entry
      logged; otherwise nothing is logged. */
  lemma DeleteDone(st: Store, id: string, calls: DeleteCalls, now: nat)
    ensures var (st', done) := Delete(st, id, calls, now);
            var ref := if id in st.rows then ParseU64(st.rows[id].vectorRef) else None;
            && (done <==> calls.getOk && (ref.Some? ==> calls.vectorOk) && calls.tombstoneOk && calls.appendOk)
            && (done ==>
                  && st'.rows == (if id in st.rows then st.rows[id := st.rows[id].(tombstone := true)] else st.rows)
                  && st'.vectors == st.vectors - (if ref.Some? then {ref.value} else {})
                  && st'.wops == st.wops + [WopEntry(st.lastSeq + 1, "delete", Text(id), now)])
            && (!done ==> st'.wops == st.wops)
  {
    assert st.vectors - {} == st.vectors;
  }

  /** Recycling tries both calls whatever the first one does: a tombstoned row is left with its vector
      exactly when the row could be tombstoned and its stored vector could not be deleted. */
  lemma RecycleKeepsVectorsLiveIff(u: Upkeep, m: MemoryItem, calls: UpkeepCalls, now: nat)
    requires Good(u.store) && ReadFrom(u.store.rows, m)
    ensures VectorsLive(RecycleOne(u, m, calls, now).store)
            <==> (calls.tombstoneOk && !calls.deleteOk ==> Ref(m).None? || Ref(m).value !in u.store.vectors)
  {
    var st' := RecycleOne(u, m, calls, now).store;
    if calls.tombstoneOk {
      assert m.id in st'.rows && st'.rows[m.id].tombstone && Ref(st'.rows[m.id]) == Ref(m);
    }
  }

  // ---------------------------------------------------------------- the first phase

  /** A recycled row is only tombstoned when its vector went. */
  predicate Orderly(c: UpkeepCalls) {
    c.tombstoneOk ==> c.deleteOk
  }

  lemma RecycleKeepsGood(u: Upkeep, m: MemoryItem, c: UpkeepCalls, now: nat)
    requires Good(u.store) && ReadFrom(u.store.rows, m) && Orderly(c)
    ensures var st' := RecycleOne(u, m, c, now).store; Good(st') && SameRefs(u.store.rows, st'.rows)
  {
    var st' := RecycleOne(u, m, c, now).store;
    if c.tombstoneOk {
      TombstoneStaysGood(u.store, st', m.id);
    } else {
      StaysGood(u.store, st');
    }
  }

  lemma PromoteKeepsGood(u: Upkeep, m: MemoryItem, c: UpkeepCalls, now: nat)
    requires Good(u.store) && ReadFrom(u.store.rows, m) && !m.tombstone
    ensures var st' := PromoteOne(u, m, c, now).store; Good(st') && SameRefs(u.store.rows, st'.rows)
  {
    StaysGood(u.store, PromoteOne(u, m, c, now).store);
  }

  lemma UpkeepOneKeepsGood(u: Upkeep, m: MemoryItem, verdict: Verdict, c: UpkeepCalls, now: nat)
    requires Good(u.store) && ReadFrom(u.store.rows, m) && !m.tombstone && Orderly(c)
    ensures var st' := UpkeepOne(u, m, verdict, c, now).store; Good(st') && SameRefs(u.store.rows, st'.rows)
  {
    match verdict
    case Recycle => RecycleKeepsGood(u, m, c, now);
    case Promote => PromoteKeepsGood(u, m, c, now);
    case Leave =>
  }

  /** The state still holds what a merge pass relies on, and the rows it was read from. */
  ghost predicate GoodSince(st: Store, st': Store) {
    Good(st') && SameRefs(st.rows, st'.rows)
  }

  /** The memory was read live from a row that is there, and is only tombstoned when its vector goes. */
  predicate Tidy(st: Store, m: MemoryItem, c: UpkeepCalls) {
    ReadFrom(st.rows, m) && !m.tombstone && Orderly(c)
  }

  lemma StillGood(st: Store, u: Upkeep, m: MemoryItem, verdict: Verdict, c: UpkeepCalls, now: nat)
    requires GoodSince(st, u.store) && Tidy(st, m, c)
    ensures GoodSince(st, UpkeepOne(u, m, verdict, c, now).store)
  {
    UpkeepOneKeepsGood(u, m, verdict, c, now);
  }

  lemma GoodAtFirst(st: Store)
    requires Good(st)
    ensures GoodSince(st, st)
  {
  }

  lemma {:induction false} UpkeepPassKeepsGood(st: Store, changed: seq<MemoryItem>, verdicts: seq<Verdict>,
                                               calls: seq<UpkeepCalls>, now: nat, n: nat)
    requires n <= |changed| == |verdicts| == |calls| && Good(st)
    requires forall i | 0 <= i < |changed| :: Tidy(st, changed[i], calls[i])
    ensures GoodSince(st, UpkeepPass(st, changed, verdicts, calls, now, n).store)
    decreases n
  {
    if n == 0 {
      GoodAtFirst(st);
    } else {
      UpkeepPassKeepsGood(st, changed, verdicts, calls, now, n - 1);
      assert Tidy(st, changed[n - 1], calls[n - 1]);
      StillGood(st, UpkeepPass(st, changed, verdicts, calls, now, n - 1), changed[n - 1], verdicts[n - 1],
                calls[n - 1], now);
    }
  }

  function Count(verdicts: seq<Verdict>, changed: seq<MemoryItem>, which: Verdict, n: nat): nat
    requires n <= |changed| == |verdicts|
  {
    if n == 0 then 0
    else
      Count(verdicts, changed, which, n - 1)
      + if verdicts[n - 1] == which && (which == Promote ==> changed[n - 1].tier == Short) then 1 else 0
  }

  /** How many troubles of one stage there are. */
  function Stages(troubles: seq<Trouble>, stage: string): nat {
    if troubles == [] then 0
    else Stages(troubles[..|troubles| - 1], stage) + if troubles[|troubles| - 1].stage == stage then 1 else 0
  }

  lemma OneStage(troubles: seq<Trouble>, t: Trouble, stage: string)
    ensures Stages(troubles + [t], stage) == Stages(troubles, stage) + if t.stage == stage then 1 else 0
  {
    assert (troubles + [t])[..|troubles|] == troubles;
  }

  /** A report of another stage, if there is one. */
  lemma OtherStage(troubles: seq<Trouble>, t: Trouble, stage: string)
    requires t.stage != stage
    ensures Stages(troubles + [t], stage) == Stages(troubles, stage)
    ensures Stages(troubles + [], stage) == Stages(troubles, stage)
  {
    OneStage(troubles, t, stage);
    assert troubles + [] == troubles;
  }

  lemma RecycleOneCounts(u: Upkeep, m: MemoryItem, c: UpkeepCalls, now: nat, stage: string)
    requires stage != "recycle"
    ensures RecycleOne(u, m, c, now).dropped == u.dropped + 1 && RecycleOne(u, m, c, now).promoted == u.promoted
    ensures Stages(RecycleOne(u, m, c, now).troubles, stage) == Stages(u.troubles, stage)
  {
    var t := Trouble(m.id, "recycle");
    var first := if Ref(m).Some? && !c.deleteOk then [t] else [];
    OtherStage(u.troubles, t, stage);
    OtherStage(u.troubles + first, t, stage);
  }

  lemma PromoteOneCounts(u: Upkeep, m: MemoryItem, c: UpkeepCalls, now: nat, stage: string)
    requires stage == "promote"
    ensures PromoteOne(u, m, c, now).dropped == u.dropped
    ensures PromoteOne(u, m, c, now).promoted + Stages(PromoteOne(u, m, c, now).troubles, stage)
            == u.promoted + Stages(u.troubles, stage) + 1
  {
    OneStage(u.troubles, Trouble(m.id, "promote"), stage);
  }

  lemma UpkeepOneCounts(u: Upkeep, m: MemoryItem, verdict: Verdict, c: UpkeepCalls, now: nat, stage: string)
    requires stage == "promote"
    ensures var u' := UpkeepOne(u, m, verdict, c, now);
            && u'.dropped == (if verdict == Recycle then u.dropped + 1 else u.dropped)
            && u'.promoted + Stages(u'.troubles, stage)
               == u.promoted + Stages(u.troubles, stage) + (if verdict == Promote && m.tier == Short then 1 else 0)
  {
    if verdict == Recycle {
      RecycleOneCounts(u, m, c, now, stage);
    } else if verdict == Promote && m.tier == Short {
      PromoteOneCounts(u, m, c, now, stage);
    }
  }

  lemma {:induction false} StageCounts(st: Store, changed: seq<MemoryItem>, verdicts: seq<Verdict>,
                                       calls: seq<UpkeepCalls>, now: nat, n: nat, stage: string)
    requires n <= |changed| == |verdicts| == |calls| && stage == "promote"
    ensures var u := UpkeepPass(st, changed, verdicts, calls, now, n);
            && u.dropped == Count(verdicts, changed, Recycle, n)
            && u.promoted + Stages(u.troubles, stage) == Count(verdicts, changed, Promote, n)
    decreases n
  {
    if n > 0 {
      StageCounts(st, changed, verdicts, calls, now, n - 1, stage);
      UpkeepOneCounts(UpkeepPass(st, changed, verdicts, calls, now, n - 1), changed[n - 1], verdicts[n - 1],
                      calls[n - 1], now, stage);
    }
  }

  /** Every memory to be recycled is counted, even if nothing could be done to it; every memory to be promoted
      is either counted or reported. */
  lemma UpkeepCounts(st: Store, changed: seq<MemoryItem>, verdicts: seq<Verdict>, calls: seq<UpkeepCalls>, now: nat,
                     n: nat)
    requires n <= |changed| == |verdicts| == |calls|
    ensures var u := UpkeepPass(st, changed, verdicts, calls, now, n);
            && u.dropped == Count(verdicts, changed, Recycle, n)
            && u.promoted + Stages(u.troubles, "promote") == Count(verdicts, changed, Promote, n)
  {
    StageCounts(st, changed, verdicts, calls, now, n, "promote");
  }
}
