/** Which memories a merge pass merges, and into which: stated from similarity, entities and stored vectors alone, for
    every memory and every hit of a whole pass. */
module SagaEdges {
  import opened Basics
  import opened Items
  import opened Saga
  import opened TextFormat
  import opened SagaMerge
  import opened SagaSurvival

  /** A neighbour worth merging into: at least 92 per cent similar, another live row under another vector, with an
      entity in common. */
  predicate Matches(src: MemoryItem, hit: Hit, index: map<nat, MemoryItem>) {
    && 100.0 * hit.sim >= 92.0 && hit.vecId in index && ParseU64(src.vectorRef) != Some(hit.vecId)
    && index[hit.vecId].id != src.id && !index[hit.vecId].tombstone
    && exists e :: e in src.entities && e in index[hit.vecId].entities
  }

  /** A live semantic memory whose vector can be read. */
  predicate Mergeable(src: MemoryItem, run: SourceRun, vectors: Vectors) {
    && src.memoryType == Semantic && !src.tombstone && run.getOk
    && ParseU64(src.vectorRef).Some? && ParseU64(src.vectorRef).value in vectors
  }

  /** The memory can be merged into this hit: its vector is stored and the tombstone can be set. */
  predicate Works(src: MemoryItem, hit: Hit, vectors: Vectors, index: map<nat, MemoryItem>) {
    hit.vecId in vectors && Matches(src, hit, index) && hit.backend.tombstoneOk
  }

  predicate FirstWorking(src: MemoryItem, hits: seq<Hit>, vectors: Vectors, index: map<nat, MemoryItem>, j: nat) {
    j < |hits| && Works(src, hits[j], vectors, index) && forall k | 0 <= k < j :: !Works(src, hits[k], vectors, index)
  }

  // ---------------------------------------------------------------- one memory

  lemma ChosenOfMore(src: MemoryItem, vr: nat, hit: Hit, rest: seq<Hit>, index: map<nat, MemoryItem>)
    ensures Chosen(src, vr, [hit] + rest, index)
            == if Eligible(src, vr, hit, index) && hit.backend.tombstoneOk then Some(hit)
               else Chosen(src, vr, rest, index)
  {
    assert ([hit] + rest)[1..] == rest;
  }

  /** An attempt goes to the first hit that works, if one does. */
  lemma {:induction false} ChosenIsFirst(src: MemoryItem, vr: nat, hits: seq<Hit>, vectors: Vectors,
                                         index: map<nat, MemoryItem>)
    requires Ref(src) == Some(vr)
    ensures var h := Chosen(src, vr, Present(hits, vectors), index);
            if h.Some? then exists j: nat :: FirstWorking(src, hits, vectors, index, j) && hits[j] == h.value
            else forall k | 0 <= k < |hits| :: !Works(src, hits[k], vectors, index)
  {
    if hits != [] {
      var rest := Present(hits[1..], vectors);
      ChosenIsFirst(src, vr, hits[1..], vectors, index);
      ChosenOfMore(src, vr, hits[0], rest, index);
      assert [] + rest == rest;
      if Works(src, hits[0], vectors, index) {
        assert FirstWorking(src, hits, vectors, index, 0);
      } else if Chosen(src, vr, rest, index).Some? {
        var j: nat :| FirstWorking(src, hits[1..], vectors, index, j)
                      && hits[1..][j] == Chosen(src, vr, rest, index).value;
        assert FirstWorking(src, hits, vectors, index, j + 1);
      }
    }
  }

  /** A memory makes an attempt exactly when it can be merged, the search answers, and some hit works. */
  lemma AttemptIff(p: Pass, src: MemoryItem, run: SourceRun, index: map<nat, MemoryItem>)
    ensures var h := AttemptOf(p, src, run, index);
            var tried := !p.aborted && Mergeable(src, run, p.store.vectors) && run.hits.Some?;
            && (h.Some? ==> tried && exists j: nat :: FirstWorking(src, run.hits.value, p.store.vectors, index, j)
                                                     && run.hits.value[j] == h.value)
            && (h.None? && tried ==>
                  forall k | 0 <= k < |run.hits.value| :: !Works(src, run.hits.value[k], p.store.vectors, index))
  {
    if Mergeable(src, run, p.store.vectors) && run.hits.Some? {
      ChosenIsFirst(src, Ref(src).value, run.hits.value, p.store.vectors, index);
    }
  }

  /** How many matching hits are passed over because the tombstone cannot be set, before one that works. */
  function Refusals(src: MemoryItem, hits: seq<Hit>, index: map<nat, MemoryItem>): nat {
    if hits == [] then 0
    else if !Matches(src, hits[0], index) then Refusals(src, hits[1..], index)
    else if hits[0].backend.tombstoneOk then 0
    else 1 + Refusals(src, hits[1..], index)
  }

  /** Each of them is reported, and so is a merge that could not be recorded; nothing else is. */
  lemma {:induction false} FailuresReported(st: Store, src: MemoryItem, vr: nat, vec: Vector, hits: seq<Hit>,
                                            index: map<nat, MemoryItem>, at: nat)
    requires Ref(src) == Some(vr)
    ensures var (_, merged, troubles) := TryHits(st, src, vr, vec, hits, index, at);
            var h := Chosen(src, vr, hits, index);
            var n := Refusals(src, hits, index);
            && (forall i | 0 <= i < n && i < |troubles| :: troubles[i] == Trouble(src.id, "merge"))
            && |troubles| >= n
            && troubles[n..] == if h.Some? && !h.value.backend.recordOk then [Trouble(src.id, "merge-log")] else []
    decreases |hits|
  {
    if hits != [] {
      assert Eligible(src, vr, hits[0], index) <==> Matches(src, hits[0], index);
      if !(Matches(src, hits[0], index) && hits[0].backend.tombstoneOk) {
        FailuresReported(st, src, vr, vec, hits[1..], index, at);
      }
    }
  }

  // ---------------------------------------------------------------- every recorded merge

  /** The merge-log row is a merge of this memory into a matching hit of its own search. */
  ghost predicate ComesFrom(row: MergeRow, src: MemoryItem, run: SourceRun, index: map<nat, MemoryItem>, at: nat) {
    && src.memoryType == Semantic && !src.tombstone && run.hits.Some?
    && exists hit :: && hit in run.hits.value && Matches(src, hit, index)
                     && row.fact == MergeFact(src.id, index[hit.vecId].id, "ann-sim+shared-entity", at)
  }

  lemma SourceAppends(p: Pass, src: MemoryItem, run: SourceRun, index: map<nat, MemoryItem>, at: nat)
    ensures var merges, merges' := p.store.merges, MergeSource(p, src, run, index, at).store.merges;
            || merges' == merges
            || (merges' != [] && merges' == merges + [merges'[|merges'| - 1]]
                && ComesFrom(merges'[|merges'| - 1], src, run, index, at))
  {
    AttemptIsAll(p, src, run, index, at);
    AttemptIff(p, src, run, index);
    var h := AttemptOf(p, src, run, index);
    if h.Some? {
      var j: nat :| FirstWorking(src, run.hits.value, p.store.vectors, index, j) && run.hits.value[j] == h.value;
      assert Matches(src, h.value, index);
    }
  }

  /** Every merge that a pass records is of a changed memory that is semantic and live, into a hit of its own search
      that is at least 92 per cent similar: another live row with which it shares an entity. */
  lemma {:induction false} MergesComeFromMatches(st: Store, changed: seq<MemoryItem>, runs: seq<SourceRun>,
                                                 index: map<nat, MemoryItem>, at: nat, n: nat)
    requires n <= |changed| == |runs|
    ensures var merges := MergePass(st, changed, runs, index, at, n).store.merges;
            && st.merges <= merges
            && forall row | row in merges[|st.merges|..] ::
                 exists i :: 0 <= i < n && ComesFrom(row, changed[i], runs[i], index, at)
    decreases n
  {
    if n > 0 {
      MergesComeFromMatches(st, changed, runs, index, at, n - 1);
      var p := MergePass(st, changed, runs, index, at, n - 1);
      SourceAppends(p, changed[n - 1], runs[n - 1], index, at);
      var merges := MergePass(st, changed, runs, index, at, n).store.merges;
      forall row | row in merges[|st.merges|..]
        ensures exists i :: 0 <= i < n && ComesFrom(row, changed[i], runs[i], index, at)
      {
        if row in p.store.merges[|st.merges|..] {
          var i :| 0 <= i < n - 1 && ComesFrom(row, changed[i], runs[i], index, at);
          assert 0 <= i < n;
        } else {
          assert row == merges[|merges| - 1];
        }
      }
    }
  }

  // ---------------------------------------------------------------- every memory that can be merged

  lemma {:induction false} MergesExtend(st: Store, changed: seq<MemoryItem>, runs: seq<SourceRun>,
                                        index: map<nat, MemoryItem>, at: nat, m: nat, n: nat)
    requires m <= n <= |changed| == |runs|
    ensures MergePass(st, changed, runs, index, at, m).store.merges
            <= MergePass(st, changed, runs, index, at, n).store.merges
    decreases n
  {
    if m < n {
      MergesExtend(st, changed, runs, index, at, m, n - 1);
      SourceAppends(MergePass(st, changed, runs, index, at, n - 1), changed[n - 1], runs[n - 1], index, at);
    }
  }

  /** The pass has come to memory number `i`, which can be merged, and its search answers. */
  predicate Tried(st: Store, changed: seq<MemoryItem>, runs: seq<SourceRun>, index: map<nat, MemoryItem>, at: nat,
                  i: nat)
    requires i < |changed| == |runs|
  {
    var p := MergePass(st, changed, runs, index, at, i);
    !p.aborted && Mergeable(changed[i], runs[i], p.store.vectors) && runs[i].hits.Some?
  }

  lemma FirstIsUnique(src: MemoryItem, hits: seq<Hit>, vectors: Vectors, index: map<nat, MemoryItem>, i: nat, j: nat)
    requires FirstWorking(src, hits, vectors, index, i) && FirstWorking(src, hits, vectors, index, j)
    ensures i == j
  {
  }

  lemma RecordedAtOnce(p: Pass, src: MemoryItem, run: SourceRun, index: map<nat, MemoryItem>, at: nat, j: nat)
    requires !p.aborted && Mergeable(src, run, p.store.vectors) && run.hits.Some?
    requires FirstWorking(src, run.hits.value, p.store.vectors, index, j) && run.hits.value[j].backend.recordOk
    ensures MergeSource(p, src, run, index, at).store.merges
            == p.store.merges + [MergeRow(p.store.nextMergeId,
                                          MergeFact(src.id, index[run.hits.value[j].vecId].id, "ann-sim+shared-entity",
                                                    at))]
  {
    AttemptIsAll(p, src, run, index, at);
    AttemptIff(p, src, run, index);
    var h := AttemptOf(p, src, run, index);
    assert Works(src, run.hits.value[j], p.store.vectors, index);
    var i: nat :| FirstWorking(src, run.hits.value, p.store.vectors, index, i) && run.hits.value[i] == h.value;
    FirstIsUnique(src, run.hits.value, p.store.vectors, index, i, j);
  }

  /** And every changed memory that can be merged when the pass comes to it is merged into the first matching hit of
      its search whose vector is stored, as long as the calls made for it succeed. */
  lemma MergedIntoFirstMatch(st: Store, changed: seq<MemoryItem>, runs: seq<SourceRun>, index: map<nat, MemoryItem>,
                             at: nat, i: nat, j: nat)
    requires i < |changed| == |runs| && Tried(st, changed, runs, index, at, i)
    requires FirstWorking(changed[i], runs[i].hits.value, MergePass(st, changed, runs, index, at, i).store.vectors,
                          index, j)
    requires runs[i].hits.value[j].backend.recordOk
    ensures var merges := MergePass(st, changed, runs, index, at, |changed|).store.merges;
            && st.merges <= merges
            && exists row :: && row in merges[|st.merges|..]
                             && row.fact == MergeFact(changed[i].id, index[runs[i].hits.value[j].vecId].id,
                                                      "ann-sim+shared-entity", at)
  {
    var p := MergePass(st, changed, runs, index, at, i);
    RecordedAtOnce(p, changed[i], runs[i], index, at, j);
    MergesExtend(st, changed, runs, index, at, 0, i);
    MergesExtend(st, changed, runs, index, at, i + 1, |changed|);
    var merges := MergePass(st, changed, runs, index, at, |changed|).store.merges;
    assert merges[|p.store.merges|] in merges[|st.merges|..];
  }

  /** So a memory is merged in a pass exactly when it can be merged as the pass comes to it, some hit works, and the
      first one that does can be recorded. */
  lemma MergedIff(st: Store, changed: seq<MemoryItem>, runs: seq<SourceRun>, index: map<nat, MemoryItem>, at: nat,
                  i: nat)
    requires i < |changed| == |runs| && DistinctIds(changed) && FindsLive(st.rows, index)
    requires forall k | 0 <= k < |changed| :: changed[k].id in st.rows
    ensures IsSourceOf(Edges(st, MergePass(st, changed, runs, index, at, |changed|).store), changed[i].id)
            <==> && Tried(st, changed, runs, index, at, i)
                 && exists j: nat ::
                      && FirstWorking(changed[i], runs[i].hits.value,
                                      MergePass(st, changed, runs, index, at, i).store.vectors, index, j)
                      && runs[i].hits.value[j].backend.recordOk
  {
    AttemptDecidesSource(st, changed, runs, index, at, |changed|, i);
    var p := MergePass(st, changed, runs, index, at, i);
    AttemptIff(p, changed[i], runs[i], index);
    var h := AttemptAt(st, changed, runs, index, at, i);
    if Tried(st, changed, runs, index, at, i) {
      forall j: nat, k: nat | FirstWorking(changed[i], runs[i].hits.value, p.store.vectors, index, j)
                              && FirstWorking(changed[i], runs[i].hits.value, p.store.vectors, index, k)
        ensures j == k
      {
        FirstIsUnique(changed[i], runs[i].hits.value, p.store.vectors, index, j, k);
      }
    }
  }

  /** A pass ends early exactly when the search fails for a memory that can be merged. */
  lemma {:induction false} EndsEarlyIff(st: Store, changed: seq<MemoryItem>, runs: seq<SourceRun>,
                                        index: map<nat, MemoryItem>, at: nat, n: nat)
    requires n <= |changed| == |runs|
    ensures MergePass(st, changed, runs, index, at, n).aborted
            <==> exists i: nat :: && i < n && runs[i].hits.None?
                                  && Mergeable(changed[i], runs[i],
                                               MergePass(st, changed, runs, index, at, i).store.vectors)
    decreases n
  {
    if n > 0 {
      EndsEarlyIff(st, changed, runs, index, at, n - 1);
    }
  }

  lemma SourceLeavesVector(p: Pass, src: MemoryItem, run: SourceRun, index: map<nat, MemoryItem>, at: nat, v: nat)
    requires ParseU64(src.vectorRef) != Some(v)
    ensures var vectors := MergeSource(p, src, run, index, at).store.vectors;
            (v in vectors <==> v in p.store.vectors) && (v in vectors ==> vectors[v] == p.store.vectors[v])
  {
    AttemptIsAll(p, src, run, index, at);
  }

  /** A pass touches no vector that is not of a changed memory. */
  lemma {:induction false} OtherVectorsStay(st: Store, changed: seq<MemoryItem>, runs: seq<SourceRun>,
                                            index: map<nat, MemoryItem>, at: nat, n: nat, v: nat)
    requires n <= |changed| == |runs| && forall i | 0 <= i < n :: ParseU64(changed[i].vectorRef) != Some(v)
    ensures var vectors := MergePass(st, changed, runs, index, at, n).store.vectors;
            (v in vectors <==> v in st.vectors) && (v in vectors ==> vectors[v] == st.vectors[v])
    decreases n
  {
    if n > 0 {
      OtherVectorsStay(st, changed, runs, index, at, n - 1, v);
      SourceLeavesVector(MergePass(st, changed, runs, index, at, n - 1), changed[n - 1], runs[n - 1], index, at, v);
    }
  }
}
