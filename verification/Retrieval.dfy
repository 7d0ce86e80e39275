/** How retrieval ranks the interactions it hits, fits them into the token budget, and counts the access. Scores
    are real numbers. */
module Retrieval {
  import opened Basics
  import opened Items

  // ---------------------------------------------------------------- hits

  /** A search answer with its fused score; `None` when it cannot be scored. */
  datatype Candidate = Candidate(vecId: nat, score: Option<real>)

  datatype Query = Query(tiers: Option<set<Tier>>, session: Option<string>, budget: nat)

  datatype Hit = Hit(item: MemoryItem, score: real)

  predicate Wanted(m: MemoryItem, q: Query) {
    && (q.tiers.Some? ==> m.tier in q.tiers.value)
    && (q.session.Some? ==> m.sessionId == q.session.value)
  }

  predicate IsHit(c: Candidate, index: map<nat, MemoryItem>, q: Query) {
    c.vecId in index && Wanted(index[c.vecId], q)
  }

  /** Every answer that leads to a row the query wants can be scored. */
  predicate Scorable(knn: seq<Candidate>, index: map<nat, MemoryItem>, q: Query) {
    forall c | c in knn && IsHit(c, index, q) :: c.score.Some?
  }

  /** The scored ones among the first `n` answers that lead to a row the query wants. */
  function Hits(knn: seq<Candidate>, index: map<nat, MemoryItem>, q: Query, n: nat): seq<Hit>
    requires n <= |knn|
  {
    if n == 0 then []
    else
      var c := knn[n - 1];
      Hits(knn, index, q, n - 1)
      + if IsHit(c, index, q) && c.score.Some? then [Hit(index[c.vecId], c.score.value)] else []
  }

  /** The hits are the scored search answers that lead to a row of one of the tiers and of the session asked for, if
      any. */
  lemma {:induction false} HitsAre(knn: seq<Candidate>, index: map<nat, MemoryItem>, q: Query, n: nat, h: Hit)
    requires n <= |knn|
    ensures h in Hits(knn, index, q, n)
            <==> exists i :: && 0 <= i < n && knn[i].vecId in index && index[knn[i].vecId] == h.item
                             && knn[i].score == Some(h.score)
                             && (q.tiers.None? || h.item.tier in q.tiers.value)
                             && (q.session.None? || h.item.sessionId == q.session.value)
  {
    if n > 0 {
      HitsAre(knn, index, q, n - 1, h);
    }
  }

  function Interactions(hits: seq<Hit>): set<string> {
    set h | h in hits :: h.item.interactionId
  }

  /** The memories hit in one interaction, in the order of the answers. */
  function ItemsOf(hits: seq<Hit>, ix: string): seq<MemoryItem> {
    if hits == [] then []
    else
      var last := hits[|hits| - 1];
      ItemsOf(hits[..|hits| - 1], ix) + if last.item.interactionId == ix then [last.item] else []
  }

  /** Scores of an interaction are folded into a running maximum that starts at 0. */
  function BestOf(hits: seq<Hit>, ix: string): (best: real)
    ensures best >= 0.0
  {
    if hits == [] then 0.0
    else
      var before := BestOf(hits[..|hits| - 1], ix);
      var last := hits[|hits| - 1];
      if last.item.interactionId == ix && last.score > before then last.score else before
  }

  predicate IsMaximum(hits: seq<Hit>, ix: string, score: real) {
    && (forall h | h in hits && h.item.interactionId == ix :: h.score <= score)
    && (exists h :: h in hits && h.item.interactionId == ix && h.score == score)
  }

  lemma {:induction false} BestIsUpper(hits: seq<Hit>, ix: string)
    ensures forall h | h in hits && h.item.interactionId == ix :: h.score <= BestOf(hits, ix)
    ensures BestOf(hits, ix) == 0.0
            || exists h :: h in hits && h.item.interactionId == ix && h.score == BestOf(hits, ix)
  {
    if hits != [] {
      BestIsUpper(hits[..|hits| - 1], ix);
      assert hits == hits[..|hits| - 1] + [hits[|hits| - 1]];
    }
  }

  /** An interaction's score is the maximum of its hit scores exactly when one of them is not negative. */
  lemma BestIsMaximumIff(hits: seq<Hit>, ix: string)
    requires ix in Interactions(hits)
    ensures IsMaximum(hits, ix, BestOf(hits, ix))
            <==> exists h :: h in hits && h.item.interactionId == ix && h.score >= 0.0
  {
    BestIsUpper(hits, ix);
    if h :| h in hits && h.item.interactionId == ix && h.score >= 0.0 {
      assert h.score <= BestOf(hits, ix);
    }
  }

  // ---------------------------------------------------------------- ranking

  datatype Block = Block(ix: string, score: real, tokens: nat)

  ghost predicate Falling(blocks: seq<Block>) {
    forall i, j | 0 <= i < j < |blocks| :: blocks[i].score >= blocks[j].score
  }

  function Insert(blocks: seq<Block>, b: Block): (r: seq<Block>)
    ensures multiset(r) == multiset(blocks) + multiset{b}
  {
    if blocks == [] then [b]
    else
      var last := blocks[|blocks| - 1];
      assert blocks == blocks[..|blocks| - 1] + [last];
      if last.score >= b.score then blocks + [b] else Insert(blocks[..|blocks| - 1], b) + [last]
  }

  /** The stable sort by falling score. */
  function Ranked(blocks: seq<Block>): (r: seq<Block>)
    ensures multiset(r) == multiset(blocks)
  {
    if blocks == [] then []
    else
      assert blocks == blocks[..|blocks| - 1] + [blocks[|blocks| - 1]];
      Insert(Ranked(blocks[..|blocks| - 1]), blocks[|blocks| - 1])
  }

  lemma InsertMembers(blocks: seq<Block>, b: Block)
    ensures forall x | x in Insert(blocks, b) :: x in blocks || x == b
  {
    forall x | x in Insert(blocks, b) ensures x in blocks || x == b {
      assert x in multiset(Insert(blocks, b));
    }
  }

  lemma FallsSnoc(blocks: seq<Block>, last: Block)
    requires Falling(blocks) && forall x | x in blocks :: x.score >= last.score
    ensures Falling(blocks + [last])
  {
  }

  lemma {:induction false} InsertFalls(blocks: seq<Block>, b: Block)
    requires Falling(blocks)
    ensures Falling(Insert(blocks, b))
  {
    if blocks != [] {
      var before := blocks[..|blocks| - 1];
      var last := blocks[|blocks| - 1];
      if last.score >= b.score {
        FallsSnoc(blocks, b);
      } else {
        InsertFalls(before, b);
        InsertMembers(before, b);
        FallsSnoc(Insert(before, b), last);
      }
    }
  }

  lemma {:induction false} RankedFalls(blocks: seq<Block>)
    ensures Falling(Ranked(blocks))
  {
    if blocks != [] {
      RankedFalls(blocks[..|blocks| - 1]);
      InsertFalls(Ranked(blocks[..|blocks| - 1]), blocks[|blocks| - 1]);
    }
  }

  // ---------------------------------------------------------------- budget

  /** Roughly 0.3 tokens per byte of text. */
  function Tokens(bytes: nat): nat {
    (bytes as real * 0.3).Floor
  }

  function Sum(blocks: seq<Block>, n: nat): nat
    requires n <= |blocks|
  {
    if n == 0 then 0 else Sum(blocks, n - 1) + blocks[n - 1].tokens
  }

  lemma {:induction false} SumGrows(blocks: seq<Block>, m: nat, n: nat)
    requires m <= n <= |blocks|
    ensures Sum(blocks, m) <= Sum(blocks, n)
    decreases n
  {
    if m < n {
      SumGrows(blocks, m, n - 1);
    }
  }

  /** `k` blocks are the longest prefix within the budget, or the first block alone. */
  ghost predicate LongestFit(ranked: seq<Block>, k: nat, budget: nat) {
    && k <= |ranked|
    && forall n: nat | n <= |ranked| :: n <= k <==> n <= 1 || Sum(ranked, n) <= budget
  }

  /** Keeps the longest prefix that fits, and the first block even if it does not. */
  method FitBudget(ranked: seq<Block>, budget: nat) returns (kept: seq<Block>, total: nat)
    ensures |kept| <= |ranked| && kept == ranked[..|kept|] && total == Sum(ranked, |kept|)
    ensures LongestFit(ranked, |kept|, budget)
  {
    kept, total := [], 0;
    for i := 0 to |ranked|
      invariant kept == ranked[..i] && total == Sum(ranked, i)
      invariant i <= 1 || total <= budget
    {
      var block := ranked[i];
      if total + block.tokens > budget && kept != [] {
        forall n: nat | n <= |ranked| ensures n <= i <==> n <= 1 || Sum(ranked, n) <= budget {
          if n <= i {
            SumGrows(ranked, n, i);
          } else {
            SumGrows(ranked, i + 1, n);
          }
        }
        return;
      }
      kept := kept + [block];
      total := total + block.tokens;
    }
    forall n: nat | n <= |ranked| ensures n <= 1 || Sum(ranked, n) <= budget {
      SumGrows(ranked, n, |ranked|);
    }
  }

  /** The next block would not fit any more. */
  lemma NextDoesNotFit(ranked: seq<Block>, k: nat, budget: nat)
    requires LongestFit(ranked, k, budget) && k < |ranked|
    ensures Sum(ranked, k) + ranked[k].tokens > budget
  {
    assert Sum(ranked, k + 1) == Sum(ranked, k) + ranked[k].tokens && Sum(ranked, 1) >= 0;
  }

  /** The kept blocks fit the budget or are a single one, and every block with a better score than a kept one is
      kept. */
  lemma KeptFits(ranked: seq<Block>, k: nat, budget: nat)
    requires LongestFit(ranked, k, budget) && Falling(ranked)
    ensures Sum(ranked, k) <= budget || k == 1
    ensures ranked != [] ==> k >= 1
    ensures forall b, c | b in ranked && c in ranked[..k] && b.score > c.score :: b in ranked[..k]
  {
    assert Sum(ranked, k) >= 0;
    if ranked != [] {
      assert Sum(ranked, 1) >= 0;
    }
    forall b, c | b in ranked && c in ranked[..k] && b.score > c.score ensures b in ranked[..k] {
      var i :| 0 <= i < k && ranked[i] == c;
      var j :| 0 <= j < |ranked| && ranked[j] == b;
      assert ranked[..k][j] == b;
    }
  }

  // ---------------------------------------------------------------- the whole of it

  /** The two maps built from the hits. */
  ghost predicate Grouped(hits: seq<Hit>, groups: map<string, seq<MemoryItem>>, best: map<string, real>) {
    && groups.Keys == Interactions(hits) && best.Keys == Interactions(hits)
    && (forall ix | ix in groups :: groups[ix] == ItemsOf(hits, ix))
    && (forall ix | ix in best :: best[ix] == BestOf(hits, ix))
  }

  lemma InteractionsStep(hits: seq<Hit>, h: Hit)
    ensures Interactions(hits + [h]) == Interactions(hits) + {h.item.interactionId}
  {
  }

  lemma OneMoreHitIn(hits: seq<Hit>, h: Hit, ix: string)
    ensures ItemsOf(hits + [h], ix) == ItemsOf(hits, ix) + (if h.item.interactionId == ix then [h.item] else [])
    ensures BestOf(hits + [h], ix) == if h.item.interactionId == ix && h.score > BestOf(hits, ix) then h.score
                                      else BestOf(hits, ix)
  {
    assert (hits + [h])[..|hits|] == hits;
  }

  lemma GroupedStep(hits: seq<Hit>, h: Hit, groups: map<string, seq<MemoryItem>>, best: map<string, real>)
    requires Grouped(hits, groups, best)
    ensures var ix := h.item.interactionId;
            var entry := if ix in best then best[ix] else 0.0;
            Grouped(hits + [h], groups[ix := (if ix in groups then groups[ix] else []) + [h.item]],
                    best[ix := if h.score > entry then h.score else entry])
  {
    var ix := h.item.interactionId;
    var groups' := groups[ix := (if ix in groups then groups[ix] else []) + [h.item]];
    var entry := if ix in best then best[ix] else 0.0;
    InteractionsStep(hits, h);
    NotYetHit(hits, ix);
    forall other | other in groups'
      ensures groups'[other] == ItemsOf(hits + [h], other)
      ensures best[ix := if h.score > entry then h.score else entry][other] == BestOf(hits + [h], other)
    {
      OneMoreHitIn(hits, h, other);
    }
  }

  /** Leaves the loop at the first wanted answer that cannot be scored. */
  method GroupHits(knn: seq<Candidate>, index: map<nat, MemoryItem>, q: Query)
    returns (ok: bool, groups: map<string, seq<MemoryItem>>, best: map<string, real>)
    ensures ok <==> Scorable(knn, index, q)
    ensures ok ==> Grouped(Hits(knn, index, q, |knn|), groups, best)
  {
    ok, groups, best := true, map[], map[];
    for i := 0 to |knn|
      invariant ok && Scorable(knn[..i], index, q) && Grouped(Hits(knn, index, q, i), groups, best)
    {
      var c := knn[i];
      assert knn[..i + 1] == knn[..i] + [c];
      if IsHit(c, index, q) {
        if c.score.None? {
          assert c in knn;
          return false, map[], map[];
        }
        var m := index[c.vecId];
        var ix := m.interactionId;
        GroupedStep(Hits(knn, index, q, i), Hit(m, c.score.value), groups, best);
        var entry := if ix in best then best[ix] else 0.0;
        best := best[ix := if c.score.value > entry then c.score.value else entry];
        groups := groups[ix := (if ix in groups then groups[ix] else []) + [m]];
      } else {
        assert Hits(knn, index, q, i + 1) == Hits(knn, index, q, i);
      }
    }
    assert knn[..|knn|] == knn;
  }

  lemma {:induction false} NotYetHit(hits: seq<Hit>, ix: string)
    ensures ix !in Interactions(hits) ==> ItemsOf(hits, ix) == [] && BestOf(hits, ix) == 0.0
  {
    if hits != [] {
      NotYetHit(hits[..|hits| - 1], ix);
      assert hits == hits[..|hits| - 1] + [hits[|hits| - 1]];
    }
  }

  /** Tokens are three tenths of the bytes, rounded down. */
  lemma TokensAre(bytes: nat)
    ensures 10 * Tokens(bytes) <= 3 * bytes < 10 * (Tokens(bytes) + 1)
  {
    var t := bytes as real * 0.3;
    assert t.Floor as real <= t < t.Floor as real + 1.0;
  }

  /** The block of an interaction: its score, and three tokens for ten bytes of its text. */
  predicate IsBlock(hits: seq<Hit>, bytes: map<string, nat>, b: Block) {
    b.ix in bytes && b.score == BestOf(hits, b.ix) && 10 * b.tokens <= 3 * bytes[b.ix] < 10 * (b.tokens + 1)
  }

  /** One block for each of the interactions; `bytes` are the lengths of their texts. */
  ghost predicate Assembled(hits: seq<Hit>, bytes: map<string, nat>, ixs: set<string>, blocks: seq<Block>) {
    && ixs <= bytes.Keys && |blocks| == |ixs|
    && (forall b | b in blocks :: b.ix in ixs && IsBlock(hits, bytes, b))
    && (forall ix | ix in ixs :: exists b :: b in blocks && b.ix == ix)
  }

  /** The memory was hit in an interaction whose block was kept. */
  ghost predicate Credited(hits: seq<Hit>, kept: seq<Block>, id: string) {
    exists h, b :: h in hits && b in kept && h.item.interactionId == b.ix && h.item.id == id
  }

  lemma {:induction false} ItemsAreHits(hits: seq<Hit>, ix: string, m: MemoryItem)
    ensures m in ItemsOf(hits, ix) <==> exists h :: h in hits && h.item.interactionId == ix && h.item == m
  {
    if hits != [] {
      ItemsAreHits(hits[..|hits| - 1], ix, m);
      assert hits == hits[..|hits| - 1] + [hits[|hits| - 1]];
    }
  }

  function Ids(items: seq<MemoryItem>): (ids: seq<string>)
    ensures forall id :: id in ids <==> exists m :: m in items && m.id == id
  {
    if items == [] then []
    else
      assert items == items[..|items| - 1] + [items[|items| - 1]];
      Ids(items[..|items| - 1]) + [items[|items| - 1].id]
  }

  /** The ids of the memories hit in the kept blocks, block by block. */
  method HitIds(groups: map<string, seq<MemoryItem>>, kept: seq<Block>, ghost hits: seq<Hit>)
    returns (ids: seq<string>)
    requires forall b | b in kept :: b.ix in groups && groups[b.ix] == ItemsOf(hits, b.ix)
    ensures forall id :: id in ids <==> Credited(hits, kept, id)
  {
    ids := [];
    for i := 0 to |kept|
      invariant forall id :: id in ids <==> Credited(hits, kept[..i], id)
    {
      var block := kept[i];
      var more := Ids(groups[block.ix]);
      forall id ensures id in ids + more <==> Credited(hits, kept[..i + 1], id) {
        CreditedStep(hits, kept, i, id);
      }
      ids := ids + more;
    }
    assert kept[..|kept|] == kept;
  }

  lemma CreditedStep(hits: seq<Hit>, kept: seq<Block>, i: nat, id: string)
    requires i < |kept|
    ensures Credited(hits, kept[..i + 1], id)
            <==> Credited(hits, kept[..i], id) || id in Ids(ItemsOf(hits, kept[i].ix))
  {
    assert kept[..i + 1] == kept[..i] + [kept[i]];
    forall m ensures m in ItemsOf(hits, kept[i].ix)
                     <==> exists h :: h in hits && h.item.interactionId == kept[i].ix && h.item == m {
      ItemsAreHits(hits, kept[i].ix, m);
    }
    if id in Ids(ItemsOf(hits, kept[i].ix)) {
      var m :| m in ItemsOf(hits, kept[i].ix) && m.id == id;
      var h :| h in hits && h.item.interactionId == kept[i].ix && h.item == m;
      assert h in hits && kept[i] in kept[..i + 1] && h.item.interactionId == kept[i].ix && h.item.id == id;
    }
    if Credited(hits, kept[..i + 1], id) {
      var h, b :| h in hits && b in kept[..i + 1] && h.item.interactionId == b.ix && h.item.id == id;
      if b == kept[i] {
        assert h.item in ItemsOf(hits, kept[i].ix);
      } else {
        assert b in kept[..i];
      }
    }
  }

  lemma AssembledStep(hits: seq<Hit>, bytes: map<string, nat>, ixs: set<string>, blocks: seq<Block>, block: Block)
    requires Assembled(hits, bytes, ixs, blocks) && block.ix !in ixs && IsBlock(hits, bytes, block)
    ensures Assembled(hits, bytes, ixs + {block.ix}, blocks + [block])
  {
    forall ix | ix in ixs + {block.ix} ensures exists b :: b in blocks + [block] && b.ix == ix {
      if ix in ixs {
        var b :| b in blocks && b.ix == ix;
        assert b in blocks + [block];
      } else {
        assert block in blocks + [block];
      }
    }
  }

  lemma MoveOne<T>(done: set<T>, todo: set<T>, x: T)
    requires x in todo && done !! todo
    ensures (done + {x}) + (todo - {x}) == done + todo && done + {x} !! todo - {x}
  {
  }

  /** The blocks, unless the text of some interaction cannot be read. */
  method AssembleBlocks(best: map<string, real>, bytes: map<string, nat>, ghost hits: seq<Hit>)
    returns (blocks: Option<seq<Block>>)
    requires best.Keys == Interactions(hits) && forall ix | ix in best :: best[ix] == BestOf(hits, ix)
    ensures blocks.None? ==> exists ix :: ix in best && ix !in bytes
    ensures blocks.Some? ==> Assembled(hits, bytes, Interactions(hits), blocks.value)
  {
    var out: seq<Block> := [];
    var todo := best.Keys;
    ghost var done: set<string> := {};
    ghost var all := best.Keys;
    while todo != {}
      invariant done + todo == all && done !! todo
      invariant Assembled(hits, bytes, done, out)
    {
      var ix :| ix in todo;
      assert ix in all;
      if ix !in bytes {
        return None;
      }
      var block := Block(ix, best[ix], Tokens(bytes[ix]));
      TokensAre(bytes[ix]);
      AssembledStep(hits, bytes, done, out, block);
      MoveOne(done, todo, ix);
      out := out + [block];
      todo := todo - {ix};
      done := done + {ix};
    }
    assert done == all;
    return Some(out);
  }

  /** Blocks for all interactions in rank order. */
  method RankBlocks(best: map<string, real>, bytes: map<string, nat>, ghost hits: seq<Hit>)
    returns (ranked: Option<seq<Block>>)
    requires best.Keys == Interactions(hits) && forall ix | ix in best :: best[ix] == BestOf(hits, ix)
    ensures ranked.None? ==> exists ix :: ix in best && ix !in bytes
    ensures ranked.Some? ==> Assembled(hits, bytes, Interactions(hits), ranked.value) && Falling(ranked.value)
  {
    var blocks := AssembleBlocks(best, bytes, hits);
    if blocks.None? {
      return None;
    }
    RankedFalls(blocks.value);
    RankingAssembles(hits, bytes, Interactions(hits), blocks.value);
    return Some(Ranked(blocks.value));
  }

  /** Exactly the live rows hit in kept blocks have one access more, at this time, and nothing else has changed. */
  ghost predicate Accessed(before: Rows, after: Rows, hits: seq<Hit>, kept: seq<Block>, touchOk: bool, now: nat) {
    && after.Keys == before.Keys
    && forall id | id in after ::
         after[id] == if touchOk && Credited(hits, kept, id) && !before[id].tombstone
                      then before[id].(accessCount := before[id].accessCount + 1, lastAccessed := now) else before[id]
  }

  class Persist {
    var rows: Rows

    /** Counts one access for each live row named, however often it is named. */
    method TouchAccessBatch(ids: seq<string>, now: nat)
      modifies this
      ensures rows.Keys == old(rows).Keys
      ensures forall id | id in rows ::
                rows[id] == if id in ids && !old(rows)[id].tombstone
                            then old(rows)[id].(accessCount := old(rows)[id].accessCount + 1, lastAccessed := now)
                            else old(rows)[id]
      ensures rows == AllTouched(old(rows), (set id | id in ids), now)
    {
      var seen: set<string> := {};
      for i := 0 to |ids|
        invariant rows.Keys == old(rows).Keys
        invariant forall id :: id in seen <==> id in ids[..i]
        invariant forall id | id in rows ::
                    rows[id] == if id in seen then Touched(old(rows)[id], now) else old(rows)[id]
      {
        var id := ids[i];
        if id !in seen {
          seen := seen + {id};
          if id in rows {
            rows := rows[id := Touched(rows[id], now)];
          }
        }
        assert ids[..i + 1] == ids[..i] + [id];
      }
      assert ids[..|ids|] == ids;
    }

    /** One access for every live memory that was hit in a kept block; a failure is only reported. */
    method Credit(groups: map<string, seq<MemoryItem>>, kept: seq<Block>, ghost hits: seq<Hit>, touchOk: bool, now: nat)
      requires forall b | b in kept :: b.ix in groups && groups[b.ix] == ItemsOf(hits, b.ix)
      modifies this
      ensures Accessed(old(rows), rows, hits, kept, touchOk, now)
    {
      var ids := HitIds(groups, kept, hits);
      if ids != [] && touchOk {
        TouchAccessBatch(ids, now);
      }
    }

    /** Retrieval from the search answers on: `knn` is `None` when embedding or search fails, `index` when the rows
        cannot be read. `ranked` is every block in rank order. */
    method RetrieveContext(knn: Option<seq<Candidate>>, index: Option<map<nat, MemoryItem>>, q: Query,
                           bytes: map<string, nat>, touchOk: bool, now: nat)
      returns (kept: Option<seq<Block>>, total: nat, ghost ranked: seq<Block>)
      modifies this
      ensures kept.Some? <==> && knn.Some? && index.Some? && Scorable(knn.value, index.value, q)
                              && Interactions(Hits(knn.value, index.value, q, |knn.value|)) <= bytes.Keys
      ensures kept.None? ==> rows == old(rows)
      ensures kept.Some? ==>
                var hits := Hits(knn.value, index.value, q, |knn.value|);
                && Assembled(hits, bytes, Interactions(hits), ranked) && Falling(ranked)
                && |kept.value| <= |ranked| && kept.value == ranked[..|kept.value|]
                && total == Sum(ranked, |kept.value|)
                && LongestFit(ranked, |kept.value|, q.budget)
                && Accessed(old(rows), rows, hits, kept.value, touchOk, now)
    {
      if knn.None? || index.None? {
        return None, 0, [];
      }
      ghost var hits := Hits(knn.value, index.value, q, |knn.value|);
      var ok, groups, best := GroupHits(knn.value, index.value, q);
      if !ok {
        return None, 0, [];
      }
      var order := RankBlocks(best, bytes, hits);
      if order.None? {
        return None, 0, [];
      }
      ranked := order.value;
      var fitting: seq<Block>;
      fitting, total := FitBudget(order.value, q.budget);
      ghost var k := |fitting|;
      assert LongestFit(ranked, k, q.budget);
      assert forall b | b in fitting :: b in ranked;
      Credit(groups, fitting, hits, touchOk, now);
      kept := Some(fitting);
    }
  }

  lemma RankingAssembles(hits: seq<Hit>, bytes: map<string, nat>, ixs: set<string>, blocks: seq<Block>)
    requires Assembled(hits, bytes, ixs, blocks)
    ensures Assembled(hits, bytes, ixs, Ranked(blocks))
  {
    var ranked := Ranked(blocks);
    assert |multiset(ranked)| == |multiset(blocks)|;
    forall b ensures b in ranked <==> b in blocks {
      assert b in multiset(ranked) <==> b in multiset(blocks);
    }
  }
}
