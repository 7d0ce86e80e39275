/**
 The leader's own table against the log it writes: after every step, a follower that replays the log so far
 has the same rows, as far as content, type, vector reference, tier and tombstone go, and beyond them only
 tombstoned ones, which a reconcile removed at the leader.
 */
module Convergence {
  import opened Basics
  import opened TextFormat
  import opened Items
  import opened Replay
  import opened Replication

  datatype Leader = Leader(rows: Rows, log: seq<WopEntry>)

  /** Leader steps that have succeeded. `Promote`, `Recycle` and `Reextract` work from a row read earlier;
      `Merge` with `recorded` false is a merge whose log row failed and that was undone. `Remove` is what a
      reconcile does to the rows. */
  datatype Action =
    | Commit(item: MemoryItem, vector: Vector)
    | Attach(id: string, entities: seq<string>, success: bool)
    | TouchAccess(ids: set<string>, now: nat)
    | Delete(id: string)
    | Recycle(snapshot: MemoryItem)
    | Promote(snapshot: MemoryItem)
    | Merge(source: string, target: string, recorded: bool)
    | Reextract(snapshot: MemoryItem, entities: seq<string>)
    | Remove(ids: set<string>)

  function PromotePayload(id: string): Payload {
    Text(Join([id, "Long"], TAB))
  }

  function MergePayload(source: string, target: string, at: nat): Payload {
    Text(Join([source, target, MERGE_REASON, Decimal(at)], TAB))
  }

  /** The leader's rows after an action. */
  function RowsAfter(rows: Rows, action: Action): Rows {
    match action
    case Commit(item, _) => Put(rows, item)
    case Attach(id, entities, success) =>
      if id in rows then rows[id := rows[id].(entities := entities, entitiesPending := !success)] else rows
    case TouchAccess(ids, now) => AllTouched(rows, ids, now)
    case Delete(id) => WithTombstone(rows, id, true)
    case Recycle(m) => WithTombstone(rows, m.id, true)
    case Promote(m) => Put(rows, m.(tier := Long))
    case Merge(source, _, recorded) =>
      var done := WithTombstone(rows, source, true);
      if recorded then done else WithTombstone(done, source, false)
    case Reextract(m, entities) => Put(rows, m.(entities := entities, entitiesPending := false))
    case Remove(ids) => rows - ids
  }

  /** The log entry an action writes, if any. */
  function Entry(action: Action, seqNo: int, at: nat): seq<WopEntry> {
    match action
    case Commit(item, vector) => [WopEntry(seqNo, "commit", Envelope(item, Some(vector)), at)]
    case Attach(_, _, _) => []
    case TouchAccess(_, _) => []
    case Delete(id) => [WopEntry(seqNo, "delete", Text(id), at)]
    case Recycle(m) => [WopEntry(seqNo, "recycle", Text(m.id), at)]
    case Promote(m) => [WopEntry(seqNo, "promote", PromotePayload(m.id), at)]
    case Merge(source, target, recorded) =>
      if recorded then [WopEntry(seqNo, "merge", MergePayload(source, target, at), at)] else []
    case Reextract(m, entities) =>
      [WopEntry(seqNo, "reextract", Bare(m.(entities := entities, entitiesPending := false)), at)]
    case Remove(_) => []
  }

  function Act(s: Leader, action: Action, at: nat): Leader {
    Leader(RowsAfter(s.rows, action), s.log + Entry(action, |s.log| + 1, at))
  }

  // ---------------------------------------------------------------- the payloads parse back

  /** A follower recognises a promote payload exactly when the id holds no tab. */
  lemma PromoteParsesIff(id: string, seqNo: int, at: nat)
    ensures IsPromote(WopEntry(seqNo, "promote", PromotePayload(id), at)) <==> TAB !in id
    ensures TAB !in id ==> Fields(PromotePayload(id)) == [id, "Long"]
  {
    JoinFirst(id, ["Long"], TAB);
    assert [id] + ["Long"] == [id, "Long"];
    SplitCounts(id, "Long", TAB);
    SplitWhole("Long", TAB);
    if TAB !in id {
      SplitJoin([id, "Long"], TAB);
    }
  }

  lemma FourFields(a: string, b: string, c: string, d: string)
    requires TAB !in c && TAB !in d
    ensures var text := a + [TAB] + (b + [TAB] + (c + [TAB] + d));
            && (|Split(text, TAB)| == 4 <==> TAB !in a && TAB !in b)
            && (TAB !in a && TAB !in b ==> Split(text, TAB) == [a, b, c, d])
  {
    var tail := c + [TAB] + d;
    SplitField(c, d, TAB);
    SplitWhole(d, TAB);
    SplitCounts(b, tail, TAB);
    SplitCounts(a, b + [TAB] + tail, TAB);
    if TAB !in a && TAB !in b {
      SplitField(b, tail, TAB);
      SplitField(a, b + [TAB] + tail, TAB);
    }
  }

  /** A follower recognises a merge payload exactly when neither id holds a tab, and reads back the time. */
  lemma MergeParsesIff(source: string, target: string, seqNo: int, at: nat)
    ensures IsMerge(WopEntry(seqNo, "merge", MergePayload(source, target, at), at))
            <==> TAB !in source && TAB !in target
    ensures TAB !in source && TAB !in target ==>
              Fields(MergePayload(source, target, at)) == [source, target, MERGE_REASON, Decimal(at)]
    ensures at < U64_LIMIT ==> ParseAt(Decimal(at)) == at
  {
    DecimalRoundTrip(at);
    MergePayloadText(source, target, Decimal(at));
    FourFields(source, target, MERGE_REASON, Decimal(at));
  }

  lemma MergePayloadText(source: string, target: string, last: string)
    ensures Join([source, target, MERGE_REASON, last], TAB)
            == source + [TAB] + (target + [TAB] + (MERGE_REASON + [TAB] + last))
  {
    JoinFirst(MERGE_REASON, [last], TAB);
    JoinFirst(target, [MERGE_REASON] + [last], TAB);
    JoinFirst(source, [target] + ([MERGE_REASON] + [last]), TAB);
    assert [source] + ([target] + ([MERGE_REASON] + [last])) == [source, target, MERGE_REASON, last];
  }

  // ---------------------------------------------------------------- convergence

  /** A memory apart from its entities and its accesses, which followers do not get. */
  function ShapeOf(m: MemoryItem): MemoryItem {
    m.(entities := [], entitiesPending := false, accessCount := 0, lastAccessed := 0)
  }

  /** The same rows. */
  ghost predicate Converged(mine: Rows, theirs: Rows) {
    mine.Keys == theirs.Keys && forall id | id in mine :: ShapeOf(mine[id]) == ShapeOf(theirs[id])
  }

  /** The first rows are among the second, and what those have beyond them is tombstoned. */
  ghost predicate Covered(mine: Rows, theirs: Rows) {
    && (forall id | id in mine :: id in theirs && ShapeOf(mine[id]) == ShapeOf(theirs[id]))
    && (forall id | id in theirs && id !in mine :: theirs[id].tombstone)
  }

  predicate Live(rows: Rows, id: string) {
    id in rows && !rows[id].tombstone
  }

  /** The same content, origin, visibility, type, tier, reference and time. */
  predicate LookTheSame(a: MemoryItem, b: MemoryItem) {
    && a.id == b.id && a.content == b.content && a.vectorRef == b.vectorRef
    && a.interactionId == b.interactionId && a.sessionId == b.sessionId && a.tenant == b.tenant
    && a.namespace == b.namespace && a.namespaceKey == b.namespaceKey
    && a.memoryType == b.memoryType && a.tier == b.tier && a.created == b.created
  }

  /** Both tables hold the same live memories, which look the same. */
  ghost predicate SameLive(mine: Rows, theirs: Rows) {
    && (forall id :: Live(mine, id) <==> Live(theirs, id))
    && (forall id | Live(mine, id) :: LookTheSame(mine[id], theirs[id]))
  }

  /** What it means for readers. */
  lemma CoveredIsSameLive(mine: Rows, theirs: Rows)
    requires Covered(mine, theirs)
    ensures SameLive(mine, theirs)
    ensures Converged(mine, theirs) <==> theirs.Keys <= mine.Keys
  {
    forall id
      ensures Live(mine, id) <==> Live(theirs, id)
      ensures Live(mine, id) ==> LookTheSame(mine[id], theirs[id])
    {
      assert id in mine ==> ShapeOf(mine[id]) == ShapeOf(theirs[id]);
    }
  }

  /** Each action finds what it works from still current: new ids are new and carry a readable vector
      reference, rows read earlier have not changed where it matters, and only tombstoned rows are removed. */
  predicate Current(rows: Rows, action: Action) {
    match action
    case Commit(item, _) => item.id !in rows && Ref(item).Some?
    case Promote(m) => TAB !in m.id && m.id in rows && ShapeOf(m.(tier := Long)) == ShapeOf(rows[m.id].(tier := Long))
    case Merge(source, target, recorded) =>
      if recorded then TAB !in source && TAB !in target else source in rows ==> !rows[source].tombstone
    case Remove(ids) => forall id | id in ids && id in rows :: rows[id].tombstone
    case _ => true
  }

  /** What the follower makes of the entry an action writes. */
  function Followed(v: View, entry: seq<WopEntry>): View
    requires |entry| <= 1
  {
    if entry == [] then v else Effect(v, entry[0])
  }

  /** The relations between leader and follower that hold before still hold. */
  ghost predicate StillAlike(mine: Rows, theirs: Rows, mine': Rows, theirs': Rows) {
    Covered(mine', theirs') && (Converged(mine, theirs) ==> Converged(mine', theirs'))
  }

  lemma TombstonedAlike(mine: Rows, theirs: Rows, id: string)
    requires Covered(mine, theirs)
    ensures StillAlike(mine, theirs, WithTombstone(mine, id, true), WithTombstone(theirs, id, true))
  {
  }

  lemma MergeConverges(rows: Rows, v: View, action: Action, seqNo: int, at: nat)
    requires Covered(rows, v.rows) && Current(rows, action) && action.Merge?
    ensures StillAlike(rows, v.rows, RowsAfter(rows, action), Followed(v, Entry(action, seqNo, at)).rows)
  {
    if action.recorded {
      MergeParsesIff(action.source, action.target, seqNo, at);
      var e := Entry(action, seqNo, at)[0];
      assert IsMerge(e) && Fields(e.payload)[0] == action.source;
      assert Effect(v, e).rows == WithTombstone(v.rows, action.source, true);
      TombstonedAlike(rows, v.rows, action.source);
    }
  }

  lemma PromoteConverges(rows: Rows, v: View, action: Action, seqNo: int, at: nat)
    requires Covered(rows, v.rows) && Current(rows, action) && action.Promote?
    ensures StillAlike(rows, v.rows, RowsAfter(rows, action), Followed(v, Entry(action, seqNo, at)).rows)
  {
    PromoteParsesIff(action.snapshot.id, seqNo, at);
    var e := Entry(action, seqNo, at)[0];
    assert Effect(v, e).rows == Promoted(v.rows, action.snapshot.id, Long);
  }

  lemma PutConverges(rows: Rows, v: View, action: Action, seqNo: int, at: nat)
    requires Covered(rows, v.rows) && Current(rows, action) && (action.Commit? || action.Reextract?)
    ensures StillAlike(rows, v.rows, RowsAfter(rows, action), Followed(v, Entry(action, seqNo, at)).rows)
  {
    var e := Entry(action, seqNo, at)[0];
    if action.Commit? {
      assert CommitRef(e).Some? && CommitItem(e) == action.item;
      assert Effect(v, e).rows == Put(v.rows, action.item);
    } else {
      assert Effect(v, e).rows == Put(v.rows, e.payload.item);
    }
  }

  lemma TombstoneConverges(rows: Rows, v: View, action: Action, seqNo: int, at: nat)
    requires Covered(rows, v.rows) && (action.Delete? || action.Recycle?)
    ensures StillAlike(rows, v.rows, RowsAfter(rows, action), Followed(v, Entry(action, seqNo, at)).rows)
  {
    var id := if action.Delete? then action.id else action.snapshot.id;
    TombstonedAlike(rows, v.rows, id);
    var e := Entry(action, seqNo, at)[0];
    assert CommitRef(e).None? && PlainId(e.payload) == Some(id);
    assert Effect(v, e).rows == WithTombstone(v.rows, id, true);
  }

  /** Attachments, accesses and removals write no entry. */
  lemma UnloggedConverges(rows: Rows, v: View, action: Action, seqNo: int, at: nat)
    requires Covered(rows, v.rows) && Current(rows, action)
    requires action.Attach? || action.TouchAccess? || action.Remove?
    ensures Covered(RowsAfter(rows, action), Followed(v, Entry(action, seqNo, at)).rows)
    ensures Converged(rows, v.rows) && !action.Remove? ==>
              Converged(RowsAfter(rows, action), Followed(v, Entry(action, seqNo, at)).rows)
  {
  }

  /** A current action keeps the follower's rows covering the leader's, and, unless it removes rows, equal to them
      if they were. */
  lemma ActionConverges(rows: Rows, v: View, action: Action, seqNo: int, at: nat)
    requires Covered(rows, v.rows) && Current(rows, action)
    ensures Covered(RowsAfter(rows, action), Followed(v, Entry(action, seqNo, at)).rows)
    ensures Converged(rows, v.rows) && !action.Remove? ==>
              Converged(RowsAfter(rows, action), Followed(v, Entry(action, seqNo, at)).rows)
  {
    match action {
      case Promote(_) => PromoteConverges(rows, v, action, seqNo, at);
      case Merge(_, _, _) => MergeConverges(rows, v, action, seqNo, at);
      case Commit(_, _) => PutConverges(rows, v, action, seqNo, at);
      case Reextract(_, _) => PutConverges(rows, v, action, seqNo, at);
      case Delete(_) => TombstoneConverges(rows, v, action, seqNo, at);
      case Recycle(_) => TombstoneConverges(rows, v, action, seqNo, at);
      case _ => UnloggedConverges(rows, v, action, seqNo, at);
    }
  }

  /** Removing tombstoned rows at the leader leaves the followers' rows equal to it exactly when there was nothing
      to remove, and covering it always. */
  lemma RemoveConvergesIff(rows: Rows, v: View, ids: set<string>)
    requires Covered(rows, v.rows) && Current(rows, Remove(ids))
    ensures Covered(RowsAfter(rows, Remove(ids)), v.rows)
    ensures Converged(rows, v.rows) ==> (Converged(RowsAfter(rows, Remove(ids)), v.rows) <==> ids !! rows.Keys)
  {
    ActionConverges(rows, v, Remove(ids), 0, 0);
  }

  /** A promotion writes back a whole row read earlier, the follower only sets the tier: they still agree
      exactly when the row is still there and unchanged in content, type, reference and tombstone. */
  lemma PromoteConvergesIff(rows: Rows, v: View, m: MemoryItem, seqNo: int, at: nat)
    requires Covered(rows, v.rows) && TAB !in m.id
    ensures var kept := m.id in rows && ShapeOf(m.(tier := Long)) == ShapeOf(rows[m.id].(tier := Long));
            var mine, theirs := RowsAfter(rows, Promote(m)), Followed(v, Entry(Promote(m), seqNo, at)).rows;
            && (Converged(rows, v.rows) ==> (Converged(mine, theirs) <==> kept))
            && (m.id in rows || !m.tombstone ==> (Covered(mine, theirs) <==> kept))
  {
    PromoteParsesIff(m.id, seqNo, at);
    var mine := RowsAfter(rows, Promote(m));
    var theirs := Followed(v, Entry(Promote(m), seqNo, at)).rows;
    assert m.id in mine;
    if Current(rows, Promote(m)) {
      ActionConverges(rows, v, Promote(m), seqNo, at);
    }
  }

  /** Undoing a merge whose log row failed leaves leader and followers alike exactly when the source was not
      tombstoned before. */
  lemma UndoneMergeConvergesIff(rows: Rows, v: View, source: string, target: string, seqNo: int, at: nat)
    requires Covered(rows, v.rows)
    ensures var undone := Merge(source, target, false);
            var mine, theirs := RowsAfter(rows, undone), Followed(v, Entry(undone, seqNo, at)).rows;
            && (Covered(mine, theirs) <==> (source in rows ==> !rows[source].tombstone))
            && (Converged(rows, v.rows) ==> (Converged(mine, theirs) <==> (source in rows ==> !rows[source].tombstone)))
  {
    if source in rows && !rows[source].tombstone {
      ActionConverges(rows, v, Merge(source, target, false), seqNo, at);
    }
  }

  datatype Timed = Timed(action: Action, at: nat)

  predicate CanAct(s: Leader, actions: seq<Timed>)
    decreases |actions|
  {
    actions == [] || (Current(s.rows, actions[0].action)
                      && CanAct(Act(s, actions[0].action, actions[0].at), actions[1..]))
  }

  function Acted(s: Leader, actions: seq<Timed>): Leader
    requires CanAct(s, actions)
    decreases |actions|
  {
    if actions == [] then s else Acted(Act(s, actions[0].action, actions[0].at), actions[1..])
  }

  predicate Removes(actions: seq<Timed>) {
    exists t :: t in actions && t.action.Remove?
  }

  /** The followers' rows after the whole log. */
  function FollowerOf(s: Leader): Rows {
    Replayed(BLANK, s.log, 0, |s.log|).rows
  }

  ghost predicate InStep(s: Leader) {
    Covered(s.rows, FollowerOf(s))
  }

  lemma ActKeepsInStep(s: Leader, action: Action, at: nat)
    requires InStep(s) && Current(s.rows, action)
    ensures InStep(Act(s, action, at))
    ensures Converged(s.rows, FollowerOf(s)) && !action.Remove? ==>
              Converged(Act(s, action, at).rows, FollowerOf(Act(s, action, at)))
  {
    var v := Replayed(BLANK, s.log, 0, |s.log|);
    var entry := Entry(action, |s.log| + 1, at);
    ActionConverges(s.rows, v, action, |s.log| + 1, at);
    ReplayedGrows(BLANK, s.log, entry, 0, |s.log|);
    assert entry == [] ==> s.log + entry == s.log;
    assert Replayed(BLANK, s.log + entry, 0, |s.log + entry|) == Followed(v, entry);
  }

  lemma {:induction false} RunsConverge(s: Leader, actions: seq<Timed>)
    requires InStep(s) && CanAct(s, actions)
    ensures InStep(Acted(s, actions))
    ensures Converged(s.rows, FollowerOf(s)) && !Removes(actions) ==>
              Converged(Acted(s, actions).rows, FollowerOf(Acted(s, actions)))
    decreases |actions|
  {
    if actions != [] {
      ActKeepsInStep(s, actions[0].action, actions[0].at);
      RunsConverge(Act(s, actions[0].action, actions[0].at), actions[1..]);
      assert Removes(actions[1..]) ==> Removes(actions);
      assert actions[0] in actions;
    }
  }

  /** Over every run of current actions from an empty store, reconciles included, the same memories are live in the
      leader's rows and in the replay of its log, and look the same; without a reconcile that removes rows, all
      rows are the same. */
  lemma LeaderAndFollowersConverge(actions: seq<Timed>)
    requires CanAct(Leader(map[], []), actions)
    ensures var s := Acted(Leader(map[], []), actions);
            && Covered(s.rows, FollowerOf(s)) && SameLive(s.rows, FollowerOf(s))
            && (!Removes(actions) ==> Converged(s.rows, FollowerOf(s)))
  {
    RunsConverge(Leader(map[], []), actions);
    CoveredIsSameLive(Acted(Leader(map[], []), actions).rows, FollowerOf(Acted(Leader(map[], []), actions)));
  }
}
