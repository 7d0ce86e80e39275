/**
 At-least-once delivery. A follower that restarts, or that lost an election, may resume at any earlier
 position, again and again, with failures in between; once it has caught up, its stores are those of a
 follower that saw every entry once.
 */
module Redelivery {
  import opened Basics
  import opened Items
  import opened Replay

  /** Equal up to repeated merge-log rows. */
  ghost predicate Same(v: View, w: View) {
    v.rows == w.rows && v.vectorIds == w.vectorIds && Facts(v.merges) == Facts(w.merges)
  }

  ghost function Facts(merges: seq<MergeFact>): set<MergeFact> {
    set fact | fact in merges
  }

  // ---------------------------------------------------------------- the net effect on one row

  /** What a stretch of the log does to one row: set some fields if the row is there, or replace it. */
  datatype Net = Touch(tombstoned: bool, tier: Option<Tier>) | Replace(item: MemoryItem)

  const UNTOUCHED := Touch(false, None)

  function Row(rows: Rows, id: string): Option<MemoryItem> {
    if id in rows then Some(rows[id]) else None
  }

  function Patch(row: Option<MemoryItem>, net: Net): Option<MemoryItem> {
    match net
    case Replace(item) => Some(item)
    case Touch(tombstoned, tier) =>
      match row
      case None => None
      case Some(item) => Some(item.(tombstone := item.tombstone || tombstoned,
                                    tier := if tier.Some? then tier.value else item.tier))
  }

  function Then(a: Net, b: Net): Net {
    match b
    case Replace(_) => b
    case Touch(tombstoned, tier) =>
      match a
      case Touch(t, r) => Touch(t || tombstoned, if tier.Some? then tier else r)
      case Replace(item) => Replace(Patch(Some(item), b).value)
  }

  lemma ThenIsComposition(row: Option<MemoryItem>, a: Net, b: Net)
    ensures Patch(row, Then(a, b)) == Patch(Patch(row, a), b)
  {
  }

  lemma ThenAssociates(a: Net, b: Net, c: Net)
    ensures Then(Then(a, b), c) == Then(a, Then(b, c))
  {
  }

  function EntryNet(e: WopEntry, id: string): Net {
    if CommitRef(e).Some? then
      if CommitItem(e).id == id then Replace(CommitItem(e)) else UNTOUCHED
    else if e.op == "delete" || e.op == "recycle" then
      Touch(PlainId(e.payload) == Some(id), None)
    else if IsPromote(e) then
      if Fields(e.payload)[0] == id then Touch(false, Some(PromoteTier(e))) else UNTOUCHED
    else if IsMerge(e) then
      Touch(Fields(e.payload)[0] == id, None)
    else if e.op == "reextract" && e.payload.Bare? && e.payload.item.id == id then
      Replace(e.payload.item)
    else UNTOUCHED
  }

  lemma EntryNetIsEffect(v: View, e: WopEntry, id: string)
    ensures Row(Effect(v, e).rows, id) == Patch(Row(v.rows, id), EntryNet(e, id))
  {
  }

  function NetOf(log: seq<WopEntry>, i: nat, j: nat, id: string): Net
    requires i <= j <= |log|
    decreases j
  {
    if i == j then UNTOUCHED else Then(NetOf(log, i, j - 1, id), EntryNet(log[j - 1], id))
  }

  lemma {:induction false} NetOfIsReplay(v: View, log: seq<WopEntry>, i: nat, j: nat, id: string)
    requires i <= j <= |log|
    ensures Row(Replayed(v, log, i, j).rows, id) == Patch(Row(v.rows, id), NetOf(log, i, j, id))
    decreases j
  {
    if i != j {
      NetOfIsReplay(v, log, i, j - 1, id);
      EntryNetIsEffect(Replayed(v, log, i, j - 1), log[j - 1], id);
      ThenIsComposition(Row(v.rows, id), NetOf(log, i, j - 1, id), EntryNet(log[j - 1], id));
    }
  }

  lemma {:induction false} NetOfSplits(log: seq<WopEntry>, i: nat, k: nat, j: nat, id: string)
    requires i <= k <= j <= |log|
    ensures NetOf(log, i, j, id) == Then(NetOf(log, i, k, id), NetOf(log, k, j, id))
    decreases j
  {
    if k != j {
      NetOfSplits(log, i, k, j - 1, id);
      ThenAssociates(NetOf(log, i, k, id), NetOf(log, k, j - 1, id), EntryNet(log[j - 1], id));
    }
  }

  /** If the later part alone turns `row` into what the whole made of some other row, then so does the
      whole: whatever the earlier part writes is already there. */
  lemma EarlierPartAbsorbed(row: Option<MemoryItem>, other: Option<MemoryItem>, earlier: Net, later: Net)
    requires Patch(row, later) == Patch(other, Then(earlier, later))
    ensures Patch(row, Then(earlier, later)) == Patch(row, later)
  {
  }

  // ---------------------------------------------------------------- vectors and merge facts only grow

  ghost function IdsIn(log: seq<WopEntry>, i: nat, j: nat): set<nat>
    requires i <= j <= |log|
  {
    Replayed(BLANK, log, i, j).vectorIds
  }

  lemma EffectAdds(v: View, e: WopEntry)
    ensures Effect(v, e).vectorIds == v.vectorIds + Effect(BLANK, e).vectorIds
    ensures Effect(v, e).merges == v.merges + Effect(BLANK, e).merges
  {
  }

  lemma FactsAppend(a: seq<MergeFact>, b: seq<MergeFact>)
    ensures Facts(a + b) == Facts(a) + Facts(b)
  {
  }

  lemma {:induction false} ReplayAdds(v: View, log: seq<WopEntry>, i: nat, j: nat)
    requires i <= j <= |log|
    ensures Replayed(v, log, i, j).vectorIds == v.vectorIds + IdsIn(log, i, j)
    ensures Replayed(v, log, i, j).merges == v.merges + Replayed(BLANK, log, i, j).merges
    decreases j
  {
    if i != j {
      ReplayAdds(v, log, i, j - 1);
      EffectAdds(Replayed(v, log, i, j - 1), log[j - 1]);
      EffectAdds(Replayed(BLANK, log, i, j - 1), log[j - 1]);
    }
  }

  lemma {:induction false} ReplayedSplits(v: View, log: seq<WopEntry>, i: nat, k: nat, j: nat)
    requires i <= k <= j <= |log|
    ensures Replayed(v, log, i, j) == Replayed(Replayed(v, log, i, k), log, k, j)
    decreases j
  {
    if k != j {
      ReplayedSplits(v, log, i, k, j - 1);
    }
  }

  // ---------------------------------------------------------------- resuming earlier changes nothing

  /** Everything a stretch can still bring is on the way: replaying it from here leads to the same stores
      as replaying the whole log once. */
  ghost predicate OnCourse(log: seq<WopEntry>, pos: nat, high: nat, w: View)
    requires pos <= high <= |log|
  {
    Same(Replayed(w, log, pos, high), Replayed(BLANK, log, 0, high))
  }

  lemma RowsAfterRewind(log: seq<WopEntry>, k: nat, pos: nat, high: nat, w: View, id: string)
    requires k <= pos <= high <= |log| && OnCourse(log, pos, high, w)
    ensures Row(Replayed(w, log, k, high).rows, id) == Row(Replayed(BLANK, log, 0, high).rows, id)
  {
    var before := Replayed(BLANK, log, 0, k);
    ReplayedSplits(BLANK, log, 0, k, high);
    NetOfIsReplay(before, log, k, high, id);
    NetOfIsReplay(w, log, pos, high, id);
    NetOfIsReplay(w, log, k, high, id);
    NetOfSplits(log, k, pos, high, id);
    EarlierPartAbsorbed(Row(w.rows, id), Row(before.rows, id), NetOf(log, k, pos, id), NetOf(log, pos, high, id));
  }

  lemma SameRows(a: Rows, b: Rows)
    requires forall id: string :: Row(a, id) == Row(b, id)
    ensures a == b
  {
    forall id: string | true
      ensures id in a <==> id in b
      ensures id in a ==> a[id] == b[id]
    {
      assert Row(a, id) == Row(b, id);
    }
  }

  lemma GrowthAfterRewind(log: seq<WopEntry>, k: nat, pos: nat, high: nat, w: View)
    requires k <= pos <= high <= |log| && OnCourse(log, pos, high, w)
    ensures Replayed(w, log, k, high).vectorIds == Replayed(BLANK, log, 0, high).vectorIds
    ensures Facts(Replayed(w, log, k, high).merges) == Facts(Replayed(BLANK, log, 0, high).merges)
  {
    var before := Replayed(BLANK, log, 0, k);
    ReplayedSplits(BLANK, log, 0, k, high);
    ReplayAdds(before, log, k, high);
    ReplayAdds(w, log, k, high);
    ReplayAdds(w, log, pos, high);
    ReplayedSplits(BLANK, log, k, pos, high);
    ReplayAdds(Replayed(BLANK, log, k, pos), log, pos, high);
    FactsAppend(before.merges, Replayed(BLANK, log, k, high).merges);
    FactsAppend(w.merges, Replayed(BLANK, log, k, high).merges);
    FactsAppend(w.merges, Replayed(BLANK, log, pos, high).merges);
    FactsAppend(Replayed(BLANK, log, k, pos).merges, Replayed(BLANK, log, pos, high).merges);
  }

  lemma RewindKeepsCourse(log: seq<WopEntry>, k: nat, pos: nat, high: nat, w: View)
    requires k <= pos <= high <= |log| && OnCourse(log, pos, high, w)
    ensures OnCourse(log, k, high, w)
  {
    forall id: string | true
      ensures Row(Replayed(w, log, k, high).rows, id) == Row(Replayed(BLANK, log, 0, high).rows, id)
    {
      RowsAfterRewind(log, k, pos, high, w, id);
    }
    SameRows(Replayed(w, log, k, high).rows, Replayed(BLANK, log, 0, high).rows);
    GrowthAfterRewind(log, k, pos, high, w);
  }

  /** Replaying log[k..n] again on top of the replay of log[..n] changes neither rows, nor the set of vector
      ids, nor the set of merge facts. */
  lemma RedeliveryIdempotent(log: seq<WopEntry>, k: nat, n: nat)
    requires k <= n <= |log|
    ensures Same(Replayed(Replayed(BLANK, log, 0, n), log, k, n), Replayed(BLANK, log, 0, n))
  {
    RewindKeepsCourse(log, k, n, n, Replayed(BLANK, log, 0, n));
  }

  /** As a list, though, the merge log grows by one row for every merge delivered again. */
  lemma RedeliveryGrowsMergeLog(log: seq<WopEntry>, k: nat, n: nat)
    requires k <= n <= |log|
    ensures |Replayed(Replayed(BLANK, log, 0, n), log, k, n).merges|
            == |Replayed(BLANK, log, 0, n).merges| + |Replayed(BLANK, log, k, n).merges|
  {
    ReplayAdds(Replayed(BLANK, log, 0, n), log, k, n);
  }

  // ---------------------------------------------------------------- whole delivery runs

  /** `high` counts the entries that have left any trace so far. */
  datatype Delivery = Delivery(pos: nat, high: nat, replica: Replica)

  datatype Event = Attempt(calls: Calls) | Rewind(pos: nat)

  predicate Possible(log: seq<WopEntry>, d: Delivery, event: Event) {
    match event
    case Attempt(_) => d.pos < |log|
    case Rewind(k) => k <= d.pos
  }

  function Deliver(log: seq<WopEntry>, d: Delivery, event: Event): Delivery
    requires Possible(log, d, event)
  {
    match event
    case Rewind(k) => d.(pos := k)
    case Attempt(calls) =>
      var (r, result) := ReplayStep(d.replica, log[d.pos], calls);
      var touched := if result.Ok? || ViewOf(r) != ViewOf(d.replica) then d.pos + 1 else d.pos;
      Delivery(if result.Ok? then d.pos + 1 else d.pos, Max(d.high, touched), r)
  }

  /** After going back, the entry there is the next one replayed, on top of what the stores hold by then. */
  lemma RewindReplaysAgain(log: seq<WopEntry>, d: Delivery, k: nat, calls: Calls)
    requires k <= d.pos && k < |log|
    ensures var again := Deliver(log, Deliver(log, d, Rewind(k)), Attempt(calls));
            var (r, result) := ReplayStep(d.replica, log[k], calls);
            again.replica == r && again.pos == if result.Ok? then k + 1 else k
  {
  }

  predicate CanDeliver(log: seq<WopEntry>, d: Delivery, events: seq<Event>)
    decreases |events|
  {
    events == [] || (Possible(log, d, events[0]) && CanDeliver(log, Deliver(log, d, events[0]), events[1..]))
  }

  function Delivered(log: seq<WopEntry>, d: Delivery, events: seq<Event>): Delivery
    requires CanDeliver(log, d, events)
    decreases |events|
  {
    if events == [] then d else Delivered(log, Deliver(log, d, events[0]), events[1..])
  }

  ghost predicate Inv(log: seq<WopEntry>, d: Delivery) {
    d.pos <= d.high <= |log| && OnCourse(log, d.pos, d.high, ViewOf(d.replica))
  }

  lemma EffectRespectsSame(v: View, w: View, e: WopEntry)
    requires Same(v, w)
    ensures Same(Effect(v, e), Effect(w, e))
  {
    EffectAdds(v, e);
    EffectAdds(w, e);
    FactsAppend(v.merges, Effect(BLANK, e).merges);
    FactsAppend(w.merges, Effect(BLANK, e).merges);
  }

  /** Replaying a stretch starts with its first entry. */
  lemma ReplayedHead(v: View, log: seq<WopEntry>, pos: nat, high: nat)
    requires pos < high <= |log|
    ensures Replayed(v, log, pos, high) == Replayed(Effect(v, log[pos]), log, pos + 1, high)
  {
    ReplayedSplits(v, log, pos, pos + 1, high);
    assert Replayed(v, log, pos, pos + 1) == Effect(Replayed(v, log, pos, pos), log[pos]);
  }

  /** A finished entry is passed; if it was new, it now counts among those that have left a trace. */
  lemma FinishedKeepsCourse(log: seq<WopEntry>, pos: nat, high: nat, v: View, w: View)
    requires pos <= high <= |log| && pos < |log| && OnCourse(log, pos, high, v) && w == Effect(v, log[pos])
    ensures OnCourse(log, pos + 1, Max(high, pos + 1), w)
  {
    if pos == high {
      EffectRespectsSame(v, Replayed(BLANK, log, 0, high), log[pos]);
    } else {
      ReplayedHead(v, log, pos, high);
    }
  }

  /** A failed one may leave a part, which is absorbed when it is tried again. */
  lemma FailedKeepsCourse(log: seq<WopEntry>, pos: nat, high: nat, v: View, w: View)
    requires pos <= high <= |log| && pos < |log| && OnCourse(log, pos, high, v) && Partial(v, log[pos], w)
    ensures OnCourse(log, pos, Max(high, pos + 1), w)
  {
    FinishedKeepsCourse(log, pos, high, v, Effect(v, log[pos]));
    PartialAbsorbed(v, log[pos], w);
    ReplayedHead(w, log, pos, Max(high, pos + 1));
  }

  lemma AttemptKeepsCourse(log: seq<WopEntry>, d: Delivery, calls: Calls)
    requires Inv(log, d) && d.pos < |log|
    ensures Inv(log, Deliver(log, d, Attempt(calls)))
  {
    var v := ViewOf(d.replica);
    var d' := Deliver(log, d, Attempt(calls));
    var w := ViewOf(d'.replica);
    StepMeaning(d.replica, log[d.pos], calls);
    if d'.pos == d.pos {
      FailedKeepsCourse(log, d.pos, d.high, v, w);
    } else {
      FinishedKeepsCourse(log, d.pos, d.high, v, w);
    }
  }

  lemma {:induction false} DeliveryInv(log: seq<WopEntry>, d: Delivery, events: seq<Event>)
    requires Inv(log, d) && CanDeliver(log, d, events)
    ensures Inv(log, Delivered(log, d, events))
    decreases |events|
  {
    if events != [] {
      match events[0] {
        case Attempt(calls) => AttemptKeepsCourse(log, d, calls);
        case Rewind(k) => RewindKeepsCourse(log, k, d.pos, d.high, ViewOf(d.replica));
      }
      DeliveryInv(log, Deliver(log, d, events[0]), events[1..]);
    }
  }

  /** However often a follower resumed earlier and whatever calls failed on the way, once its position has
      passed everything it ever touched, its stores are those of one undisturbed replay. */
  lemma CaughtUpIsExactlyOnce(log: seq<WopEntry>, events: seq<Event>)
    requires CanDeliver(log, Delivery(0, 0, EMPTY), events)
    requires var d := Delivered(log, Delivery(0, 0, EMPTY), events); d.pos == d.high
    ensures var d := Delivered(log, Delivery(0, 0, EMPTY), events);
            && d.pos <= |log|
            && Same(ViewOf(d.replica), Replayed(BLANK, log, 0, d.pos))
  {
    assert Inv(log, Delivery(0, 0, EMPTY));
    DeliveryInv(log, Delivery(0, 0, EMPTY), events);
  }
}
