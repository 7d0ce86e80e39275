/** The follower's side of one log entry and of one batch: which backend calls are made, in which order,
    and what is left behind when one of them fails. */
module Replay {
  import opened Basics
  import opened TextFormat
  import opened Items

  /** What a follower stores. */
  datatype Replica = Replica(rows: Rows, vectors: Vectors, merges: seq<MergeFact>)

  const EMPTY := Replica(map[], map[], [])

  /** How the backend calls made for one entry turn out; `embedding` is the embedder's answer, if any. */
  datatype Calls = Calls(embedding: Option<Vector>, insertOk: bool, putOk: bool, tombstoneOk: bool, getOk: bool,
                         mergeOk: bool)

  datatype Failure = Transient | Permanent

  /** A commit payload: the envelope form is tried first, then the older bare item. */
  function DecodeCommit(payload: Payload): Option<(MemoryItem, Option<Vector>)> {
    match payload
    case Envelope(item, vector) => Some((item, vector))
    case Bare(item) => Some((item, None))
    case Text(_) => None
  }

  /** No row has JSON text as its id. */
  function PlainId(payload: Payload): Option<string> {
    if payload.Text? then Some(payload.text) else None
  }

  function Fields(payload: Payload): seq<string> {
    if payload.Text? then Split(payload.text, TAB) else [[]]
  }

  function TierNamed(name: string): Option<Tier> {
    if name == "Long" then Some(Long)
    else if name == "Short" then Some(Short)
    else if name == "Working" then Some(Working)
    else None
  }

  function ParseAt(field: string): nat {
    match ParseU64(field)
    case Some(n) => n
    case None => 0
  }

  function Tombstoned(rows: Rows, id: Option<string>): Rows {
    if id.Some? then WithTombstone(rows, id.value, true) else rows
  }

  /** Replays one entry. `Ok(true)` is applied, `Ok(false)` is skipped; on an error the calls made so far
      stay done. */
  function ReplayStep(r: Replica, e: WopEntry, calls: Calls): (Replica, Result<bool, Failure>) {
    if e.op == "commit" then ReplayCommit(r, e.payload, calls)
    else if e.op == "delete" || e.op == "recycle" then
      if calls.tombstoneOk then (r.(rows := Tombstoned(r.rows, PlainId(e.payload))), Ok(true)) else (r, Err(Transient))
    else if e.op == "promote" then ReplayPromote(r, Fields(e.payload), calls)
    else if e.op == "merge" then ReplayMerge(r, Fields(e.payload), calls)
    else if e.op == "reextract" then
      if !e.payload.Bare? then (r, Err(Permanent))
      else if calls.putOk then (r.(rows := Put(r.rows, e.payload.item)), Ok(true)) else (r, Err(Transient))
    else (r, Ok(false))
  }

  function ReplayCommit(r: Replica, payload: Payload, calls: Calls): (Replica, Result<bool, Failure>) {
    match DecodeCommit(payload)
    case None => (r, Err(Permanent))
    case Some((item, carried)) =>
      match Ref(item)
      case None => (r, Err(Permanent))
      case Some(vecId) =>
        var vector := if carried.Some? then carried else calls.embedding;
        if vector.None? || !calls.insertOk then (r, Err(Transient))
        else
          var r1 := r.(vectors := InsertVector(r.vectors, vecId, vector.value));
          if calls.putOk then (r1.(rows := Put(r1.rows, item)), Ok(true)) else (r1, Err(Transient))
  }

  function ReplayPromote(r: Replica, parts: seq<string>, calls: Calls): (Replica, Result<bool, Failure>) {
    if |parts| != 2 then (r, Ok(false))
    else
      match TierNamed(parts[1])
      case None => (r, Err(Transient))
      case Some(tier) =>
        if !calls.getOk then (r, Err(Transient))
        else if parts[0] !in r.rows then (r, Ok(true))
        else if calls.putOk then (r.(rows := r.rows[parts[0] := r.rows[parts[0]].(tier := tier)]), Ok(true))
        else (r, Err(Transient))
  }

  function ReplayMerge(r: Replica, parts: seq<string>, calls: Calls): (Replica, Result<bool, Failure>) {
    if |parts| != 4 then (r, Ok(false))
    else if !calls.tombstoneOk then (r, Err(Transient))
    else
      var r1 := r.(rows := WithTombstone(r.rows, parts[0], true));
      if calls.mergeOk then
        (r1.(merges := r1.merges + [MergeFact(parts[0], parts[1], parts[2], ParseAt(parts[3]))]), Ok(true))
      else (r1, Err(Transient))
  }

  datatype ReplayOutcome = ReplayOutcome(applied: nat, skipped: nat, lastAppliedSeq: int, failed: bool,
                                         permanent: bool)

  const NOTHING_YET := ReplayOutcome(0, 0, 0, false, false)

  function Tally(acc: ReplayOutcome, done: bool, seqNo: int): ReplayOutcome {
    var moved := acc.(lastAppliedSeq := Max(acc.lastAppliedSeq, seqNo));
    if done then moved.(applied := acc.applied + 1) else moved.(skipped := acc.skipped + 1)
  }

  /** Replays a batch in order and stops at the first entry that fails. */
  function ReplayBatch(r: Replica, entries: seq<WopEntry>, calls: seq<Calls>, acc: ReplayOutcome)
    : (Replica, ReplayOutcome)
    requires |calls| == |entries|
    decreases |entries|
  {
    if entries == [] then (r, acc)
    else
      var (r1, result) := ReplayStep(r, entries[0], calls[0]);
      match result
      case Ok(done) => ReplayBatch(r1, entries[1..], calls[1..], Tally(acc, done, entries[0].seqNo))
      case Err(f) => (r1, acc.(failed := true, permanent := f == Permanent))
  }

  // ---------------------------------------------------------------- what an entry means

  /** The part of a replica that the log determines: rows, ids of stored vectors, merge facts. The vectors
      themselves may come from the follower's own embedder. */
  datatype View = View(rows: Rows, vectorIds: set<nat>, merges: seq<MergeFact>)

  const BLANK := View(map[], {}, [])

  function ViewOf(r: Replica): View {
    View(r.rows, r.vectors.Keys, r.merges)
  }

  /** The vector id a commit entry brings, if it can be replayed at all. */
  function CommitRef(e: WopEntry): Option<nat> {
    if e.op != "commit" then None
    else
      match DecodeCommit(e.payload)
      case None => None
      case Some((item, _)) => Ref(item)
  }

  function CommitItem(e: WopEntry): MemoryItem
    requires CommitRef(e).Some?
  {
    DecodeCommit(e.payload).value.0
  }

  predicate IsMerge(e: WopEntry) {
    e.op == "merge" && |Fields(e.payload)| == 4
  }

  /** The complete meaning of an entry. */
  function Effect(v: View, e: WopEntry): View {
    if CommitRef(e).Some? then
      v.(rows := Put(v.rows, CommitItem(e)), vectorIds := v.vectorIds + {CommitRef(e).value})
    else if e.op == "delete" || e.op == "recycle" then
      v.(rows := Tombstoned(v.rows, PlainId(e.payload)))
    else if IsPromote(e) then
      v.(rows := Promoted(v.rows, Fields(e.payload)[0], PromoteTier(e)))
    else if IsMerge(e) then
      var parts := Fields(e.payload);
      v.(rows := WithTombstone(v.rows, parts[0], true),
         merges := v.merges + [MergeFact(parts[0], parts[1], parts[2], ParseAt(parts[3]))])
    else if e.op == "reextract" && e.payload.Bare? then
      v.(rows := Put(v.rows, e.payload.item))
    else v
  }

  predicate IsPromote(e: WopEntry) {
    e.op == "promote" && |Fields(e.payload)| == 2 && TierNamed(Fields(e.payload)[1]).Some?
  }

  function PromoteTier(e: WopEntry): Tier
    requires IsPromote(e)
  {
    TierNamed(Fields(e.payload)[1]).value
  }

  function Promoted(rows: Rows, id: string, tier: Tier): Rows {
    if id in rows then rows[id := rows[id].(tier := tier)] else rows
  }

  /** What a failed attempt may leave behind: nothing, a commit's vector, or a merge's tombstone. */
  predicate Partial(v: View, e: WopEntry, v': View) {
    || v' == v
    || (CommitRef(e).Some? && v' == v.(vectorIds := v.vectorIds + {CommitRef(e).value}))
    || (IsMerge(e) && v' == v.(rows := WithTombstone(v.rows, Fields(e.payload)[0], true)))
  }

  /** A step that succeeds has exactly the entry's meaning, a step that fails only a partial effect; an
      entry that fails permanently never changes anything. */
  lemma StepMeaning(r: Replica, e: WopEntry, calls: Calls)
    ensures var (r', result) := ReplayStep(r, e, calls);
            && (result.Ok? ==> ViewOf(r') == Effect(ViewOf(r), e))
            && (result.Err? ==> Partial(ViewOf(r), e, ViewOf(r')))
            && (result == Err(Permanent) ==> r' == r)
  {
  }

  /** No entry changes a stored vector. Only a commit adds one, under the reference of its item: the one it carries,
      or else the follower's own embedding. */
  lemma VectorsKept(r: Replica, e: WopEntry, calls: Calls)
    ensures var r' := ReplayStep(r, e, calls).0;
            && (forall v | v in r.vectors :: v in r'.vectors && r'.vectors[v] == r.vectors[v])
            && (forall v | v in r'.vectors && v !in r.vectors ::
                  && e.op == "commit" && !e.payload.Text? && ParseU64(e.payload.item.vectorRef) == Some(v)
                  && Some(r'.vectors[v]) == if e.payload.Envelope? && e.payload.vector.Some? then e.payload.vector
                                            else calls.embedding)
  {
  }

  // ---------------------------------------------------------------- each form of entry

  /** A commit that carries a vector stores its item and exactly that vector; the embedder has no say. */
  lemma CarriedVectorStored(r: Replica, e: WopEntry, calls: Calls, item: MemoryItem, vector: Vector, v: nat)
    requires e.op == "commit" && e.payload == Envelope(item, Some(vector)) && ParseU64(item.vectorRef) == Some(v)
    ensures var (r', result) := ReplayStep(r, e, calls);
            && result == (if calls.insertOk && calls.putOk then Ok(true) else Err(Transient))
            && (result.Ok? ==> r' == Replica(r.rows[item.id := item],
                                             if v in r.vectors then r.vectors else r.vectors[v := vector], r.merges))
    ensures forall other :: ReplayStep(r, e, calls.(embedding := other)) == ReplayStep(r, e, calls)
  {
  }

  /** Without a carried vector, as in the older form of commits, the follower stores its own embedding; while the
      embedder is down nothing happens and the entry is tried again. */
  lemma MissingVectorEmbedded(r: Replica, e: WopEntry, calls: Calls, item: MemoryItem, v: nat)
    requires e.op == "commit" && (e.payload == Envelope(item, None) || e.payload == Bare(item))
    requires ParseU64(item.vectorRef) == Some(v)
    ensures var (r', result) := ReplayStep(r, e, calls);
            && (calls.embedding.None? ==> r' == r)
            && result == (if calls.embedding.Some? && calls.insertOk && calls.putOk then Ok(true) else Err(Transient))
            && (result.Ok? ==> r' == Replica(r.rows[item.id := item],
                                             if v in r.vectors then r.vectors
                                             else r.vectors[v := calls.embedding.value], r.merges))
  {
  }

  /** A payload that no retry will make readable. */
  predicate Broken(e: WopEntry) {
    || (e.op == "commit" && (e.payload.Text? || ParseU64(e.payload.item.vectorRef).None?))
    || (e.op == "reextract" && !e.payload.Bare?)
  }

  /** Exactly those entries fail for good, whatever calls are made, and they change nothing. */
  lemma PermanentIff(r: Replica, e: WopEntry, calls: Calls)
    ensures var (r', result) := ReplayStep(r, e, calls);
            (result == Err(Permanent) <==> Broken(e)) && (Broken(e) ==> r' == r)
  {
  }

  /** Deletes and recyclings set the tombstone of the row they name, if it is there. */
  lemma NamedRowTombstoned(r: Replica, e: WopEntry, calls: Calls, id: string)
    requires (e.op == "delete" || e.op == "recycle") && e.payload == Text(id)
    ensures var dead := if id in r.rows then r.rows[id := r.rows[id].(tombstone := true)] else r.rows;
            ReplayStep(r, e, calls) == if calls.tombstoneOk then (r.(rows := dead), Ok(true)) else (r, Err(Transient))
  {
  }

  /** A promotion sets the tier it names on the row it names; an absent row is no error, an unknown tier is one. */
  lemma NamedTierSet(r: Replica, e: WopEntry, calls: Calls, id: string, name: string)
    requires e.op == "promote" && e.payload == Text(id + [TAB] + name) && TAB !in id && TAB !in name
    ensures var (r', result) := ReplayStep(r, e, calls);
            && (result.Ok? ==> result.value && r'.vectors == r.vectors && r'.merges == r.merges)
            && (result.Err? ==> result == Err(Transient) && r' == r)
            && (result.Ok? && id !in r.rows ==> r' == r)
            && (result.Ok? && id in r.rows ==> r'.rows == r.rows[id := r.rows[id].(tier := r'.rows[id].tier)])
            && (name == "Long" && result.Ok? && id in r.rows ==> r'.rows[id].tier == Long)
            && (name == "Short" && result.Ok? && id in r.rows ==> r'.rows[id].tier == Short)
            && (name == "Working" && result.Ok? && id in r.rows ==> r'.rows[id].tier == Working)
            && (result.Ok? <==> && (name == "Long" || name == "Short" || name == "Working")
                                && calls.getOk && (id in r.rows ==> calls.putOk))
  {
    SplitField(id, name, TAB);
    SplitWhole(name, TAB);
  }

  /** A merge sets the tombstone of its source and records source, target, reason and time; a time that does not read
      counts as 0. */
  lemma NamedMergeRecorded(r: Replica, e: WopEntry, calls: Calls, src: string, tgt: string, reason: string,
                           time: string)
    requires e.op == "merge" && e.payload == Text(src + [TAB] + (tgt + [TAB] + (reason + [TAB] + time)))
    requires TAB !in src && TAB !in tgt && TAB !in reason && TAB !in time
    ensures var dead := if src in r.rows then r.rows[src := r.rows[src].(tombstone := true)] else r.rows;
            var at := if ParseU64(time).Some? then ParseU64(time).value else 0;
            ReplayStep(r, e, calls)
            == if !calls.tombstoneOk then (r, Err(Transient))
               else if !calls.mergeOk then (r.(rows := dead), Err(Transient))
               else (r.(rows := dead, merges := r.merges + [MergeFact(src, tgt, reason, at)]), Ok(true))
  {
    SplitField(src, tgt + [TAB] + (reason + [TAB] + time), TAB);
    SplitField(tgt, reason + [TAB] + time, TAB);
    SplitField(reason, time, TAB);
    SplitWhole(time, TAB);
  }

  /** A late extraction replaces the row by the item it holds. */
  lemma RewrittenRowReplaced(r: Replica, e: WopEntry, calls: Calls)
    requires e.op == "reextract" && e.payload.Bare?
    ensures ReplayStep(r, e, calls)
            == if calls.putOk then (r.(rows := r.rows[e.payload.item.id := e.payload.item]), Ok(true))
               else (r, Err(Transient))
  {
  }

  /** The forms of entries that a follower acts on. */
  predicate Understood(e: WopEntry) {
    || e.op == "commit" || e.op == "delete" || e.op == "recycle" || e.op == "reextract"
    || (e.op == "promote" && e.payload.Text? && |Split(e.payload.text, TAB)| == 2)
    || (e.op == "merge" && e.payload.Text? && |Split(e.payload.text, TAB)| == 4)
  }

  /** Any other entry is passed over without a call. */
  lemma SkippedIff(r: Replica, e: WopEntry, calls: Calls)
    ensures if Understood(e) then ReplayStep(r, e, calls).1 != Ok(false) else ReplayStep(r, e, calls) == (r, Ok(false))
  {
  }

  /** Trying an entry again on top of its own partial effect has the effect of trying it once. */
  lemma PartialAbsorbed(v: View, e: WopEntry, v': View)
    requires Partial(v, e, v')
    ensures Effect(v', e) == Effect(v, e)
    ensures forall w :: Partial(v', e, w) ==> Partial(v, e, w)
  {
  }

  /** The meaning of the entries at positions `i` up to but not including `j`, one after the other. */
  function Replayed(v: View, log: seq<WopEntry>, i: nat, j: nat): View
    requires i <= j <= |log|
    decreases j
  {
    if i == j then v else Effect(Replayed(v, log, i, j - 1), log[j - 1])
  }

  // ---------------------------------------------------------------- the sink and the loop

  /** The follower's local stores, written in place by replay. */
  class Sink {
    var rows: Rows
    var vectors: Vectors
    var merges: seq<MergeFact>

    ghost function State(): Replica
      reads this
    {
      Replica(rows, vectors, merges)
    }

    constructor ()
      ensures State() == EMPTY
    {
      rows, vectors, merges := map[], map[], [];
    }

    method PutItem(item: MemoryItem, ok: bool) returns (result: Result<bool, Failure>)
      modifies this`rows
      ensures result == if ok then Ok(true) else Err(Transient)
      ensures rows == if ok then old(rows)[item.id := item] else old(rows)
    {
      if !ok {
        return Err(Transient);
      }
      rows := Put(rows, item);
      return Ok(true);
    }

    method StoreVector(id: nat, vector: Vector, ok: bool) returns (result: Result<bool, Failure>)
      modifies this`vectors
      ensures result == if ok then Ok(true) else Err(Transient)
      ensures vectors == if ok && id !in old(vectors) then old(vectors)[id := vector] else old(vectors)
    {
      if !ok {
        return Err(Transient);
      }
      vectors := InsertVector(vectors, id, vector);
      return Ok(true);
    }

    method Tombstone(id: string, ok: bool) returns (result: Result<bool, Failure>)
      modifies this`rows
      ensures result == if ok then Ok(true) else Err(Transient)
      ensures rows == if ok && id in old(rows) then old(rows)[id := old(rows)[id].(tombstone := true)] else old(rows)
    {
      if !ok {
        return Err(Transient);
      }
      rows := WithTombstone(rows, id, true);
      return Ok(true);
    }

    /** An unknown tier is an error; a row that is gone is not. */
    method PromoteTier(id: string, tier: string, getOk: bool, putOk: bool) returns (result: Result<bool, Failure>)
      modifies this`rows
      ensures (Replica(rows, vectors, merges), result)
              == ReplayPromote(Replica(old(rows), vectors, merges), [id, tier],
                               Calls(None, true, putOk, true, getOk, true))
    {
      var named := TierNamed(tier);
      if named.None? || !getOk {
        return Err(Transient);
      }
      if id !in rows {
        return Ok(true);
      }
      var item := rows[id].(tier := named.value);
      if !putOk {
        return Err(Transient);
      }
      rows := rows[id := item];
      return Ok(true);
    }

    method RecordMerge(fact: MergeFact, ok: bool) returns (result: Result<bool, Failure>)
      modifies this`merges
      ensures result == if ok then Ok(true) else Err(Transient)
      ensures merges == if ok then old(merges) + [fact] else old(merges)
    {
      if !ok {
        return Err(Transient);
      }
      merges := merges + [fact];
      return Ok(true);
    }

    /** Dispatches one entry to the backend calls. */
    method ReplayOne(e: WopEntry, calls: Calls) returns (result: Result<bool, Failure>)
      modifies this
      ensures (State(), result) == ReplayStep(old(State()), e, calls)
    {
      if e.op == "commit" {
        var decoded := DecodeCommit(e.payload);
        if decoded.None? {
          return Err(Permanent);
        }
        var (item, carried) := decoded.value;
        var vecId := Ref(item);
        if vecId.None? {
          return Err(Permanent);
        }
        var vector := if carried.Some? then carried else calls.embedding;
        if vector.None? {
          return Err(Transient);
        }
        result := StoreVector(vecId.value, vector.value, calls.insertOk);
        if result.Ok? {
          result := PutItem(item, calls.putOk);
        }
      } else if e.op == "delete" || e.op == "recycle" {
        var id := PlainId(e.payload);
        if id.Some? {
          result := Tombstone(id.value, calls.tombstoneOk);
        } else {
          result := if calls.tombstoneOk then Ok(true) else Err(Transient);
        }
      } else if e.op == "promote" {
        var parts := Fields(e.payload);
        if |parts| == 2 {
          assert parts == [parts[0], parts[1]];
          result := PromoteTier(parts[0], parts[1], calls.getOk, calls.putOk);
        } else {
          result := Ok(false);
        }
      } else if e.op == "merge" {
        var parts := Fields(e.payload);
        if |parts| == 4 {
          result := Tombstone(parts[0], calls.tombstoneOk);
          if result.Ok? {
            result := RecordMerge(MergeFact(parts[0], parts[1], parts[2], ParseAt(parts[3])), calls.mergeOk);
          }
        } else {
          result := Ok(false);
        }
      } else if e.op == "reextract" {
        if !e.payload.Bare? {
          return Err(Permanent);
        }
        result := PutItem(e.payload.item, calls.putOk);
      } else {
        result := Ok(false);
      }
    }

    /** Replays a batch, leaving the loop at the first failure. */
    method ReplayWops(entries: seq<WopEntry>, calls: seq<Calls>) returns (outcome: ReplayOutcome)
      requires |calls| == |entries|
      modifies this
      ensures (State(), outcome) == ReplayBatch(old(State()), entries, calls, NOTHING_YET)
    {
      outcome := NOTHING_YET;
      for i := 0 to |entries|
        invariant ReplayBatch(State(), entries[i..], calls[i..], outcome)
                  == ReplayBatch(old(State()), entries, calls, NOTHING_YET)
      {
        assert entries[i..][1..] == entries[i + 1..] && calls[i..][1..] == calls[i + 1..];
        var result := ReplayOne(entries[i], calls[i]);
        match result {
          case Ok(done) =>
            outcome := Tally(outcome, done, entries[i].seqNo);
          case Err(f) =>
            outcome := outcome.(failed := true, permanent := f == Permanent);
            break;
        }
      }
    }
  }
}
