/**
 Log replication over whole runs: the leader appends and prunes, any number of followers pull batches of
 any size, and every backend call of a follower may fail.
 */
module Replication {
  import opened Basics
  import opened Items
  import opened Replay
  import opened WopTable

  /** A follower: the number of the last entry it has finished, and its stores. */
  datatype Peer = Peer(cursor: int, replica: Replica)

  /** `log` is everything ever appended; the first `dropped` entries have been pruned from the table. */
  datatype System = System(log: seq<WopEntry>, dropped: nat, peers: seq<Peer>)

  datatype Step =
    | Append(entry: WopEntry)
    | Sync(peer: nat, limit: nat, calls: seq<Calls>)
    | Prune(before: int)

  /** Replays fetched entries and moves the cursor to the last one that was finished. */
  function Absorb(p: Peer, entries: seq<WopEntry>, calls: seq<Calls>): (Peer, ReplayOutcome)
    requires |calls| == |entries|
  {
    var (replica, outcome) := ReplayBatch(p.replica, entries, calls, NOTHING_YET);
    (Peer(if outcome.lastAppliedSeq > p.cursor then outcome.lastAppliedSeq else p.cursor, replica), outcome)
  }

  function Start(followers: nat): System {
    System([], 0, seq(followers, _ => Peer(0, EMPTY)))
  }

  function LastSeq(log: seq<WopEntry>): int {
    if log == [] then 0 else log[|log| - 1].seqNo
  }

  /** The rows in the leader's table. */
  function Table(s: System): seq<WopEntry>
    requires s.dropped <= |s.log|
  {
    s.log[s.dropped..]
  }

  /** Numbers grow past everything handed out before; pruning stays behind every follower's next entry. */
  predicate Enabled(s: System, step: Step) {
    s.dropped <= |s.log| &&
    match step
    case Append(e) => 0 < e.seqNo && (s.log != [] ==> s.log[|s.log| - 1].seqNo < e.seqNo)
    case Sync(f, limit, calls) => f < |s.peers| && |calls| == |ListSince(Table(s), s.peers[f].cursor, limit)|
    case Prune(before) => forall f | 0 <= f < |s.peers| :: before <= s.peers[f].cursor + 1
  }

  function Apply(s: System, step: Step): System
    requires Enabled(s, step)
  {
    match step
    case Append(e) => s.(log := s.log + [e])
    case Sync(f, limit, calls) =>
      var (peer, _) := Absorb(s.peers[f], ListSince(Table(s), s.peers[f].cursor, limit), calls);
      s.(peers := s.peers[f := peer])
    case Prune(before) => s.(dropped := |s.log| - |Pruned(Table(s), before)|)
  }

  predicate CanRun(s: System, steps: seq<Step>)
    decreases |steps|
  {
    steps == [] || (Enabled(s, steps[0]) && CanRun(Apply(s, steps[0]), steps[1..]))
  }

  function After(s: System, steps: seq<Step>): System
    requires CanRun(s, steps)
    decreases |steps|
  {
    if steps == [] then s else After(Apply(s, steps[0]), steps[1..])
  }

  // ---------------------------------------------------------------- one batch

  /** The view is exactly the replay of the first `k` entries, or that with a partial effect of the next. */
  predicate Near(log: seq<WopEntry>, k: nat, w: View)
    requires k <= |log|
  {
    var done := Replayed(BLANK, log, 0, k);
    w == done || (k < |log| && Partial(done, log[k], w))
  }

  /** Replaying one entry from a state near position `k` ends near `k + 1` if it succeeds, near `k` if not. */
  lemma StepNear(log: seq<WopEntry>, k: nat, r: Replica, calls: Calls)
    requires k < |log| && Near(log, k, ViewOf(r))
    ensures var (r', result) := ReplayStep(r, log[k], calls);
            if result.Ok? then ViewOf(r') == Replayed(BLANK, log, 0, k + 1) else Near(log, k, ViewOf(r'))
  {
    StepMeaning(r, log[k], calls);
    PartialAbsorbed(Replayed(BLANK, log, 0, k), log[k], ViewOf(r));
  }

  /** How many of the entries from `i` up to `j` are of a form that is acted on. */
  function UnderstoodIn(log: seq<WopEntry>, i: nat, j: nat): nat
    requires i <= j <= |log|
    decreases j - i
  {
    if i == j then 0 else (if Understood(log[i]) then 1 else 0) + UnderstoodIn(log, i + 1, j)
  }

  /** A batch finishes a prefix of its entries, in order, and touches at most the entry it stopped at. It counts as
      applied those of a known form, and as skipped the others; it fails for good exactly at a broken entry. */
  lemma {:induction false} BatchIsPrefix(log: seq<WopEntry>, k: nat, m: nat, r: Replica, calls: seq<Calls>,
                                         acc: ReplayOutcome) returns (k': nat)
    requires k <= m <= |log| && |calls| == m - k && Sorted(log) && Near(log, k, ViewOf(r)) && !acc.failed
    ensures k <= k' <= m
    ensures var (r', outcome) := ReplayBatch(r, log[k..m], calls, acc);
            && (outcome.failed <==> k' < m)
            && (k' < m ==> (outcome.permanent <==> Broken(log[k'])))
            && outcome.applied == acc.applied + UnderstoodIn(log, k, k')
            && outcome.applied + outcome.skipped == acc.applied + acc.skipped + (k' - k)
            && outcome.lastAppliedSeq
               == (if k' == k then acc.lastAppliedSeq else Max(acc.lastAppliedSeq, log[k' - 1].seqNo))
            && Near(log, k', ViewOf(r'))
    decreases m - k
  {
    k' := k;
    if k < m {
      StepNear(log, k, r, calls[0]);
      SkippedIff(r, log[k], calls[0]);
      PermanentIff(r, log[k], calls[0]);
      var (r1, result) := ReplayStep(r, log[k], calls[0]);
      assert log[k..m][0] == log[k] && log[k..m][1..] == log[k + 1..m];
      if result.Ok? {
        k' := BatchIsPrefix(log, k + 1, m, r1, calls[1..], Tally(acc, result.value, log[k].seqNo));
      }
    }
  }

  // ---------------------------------------------------------------- every run

  /** The follower holds exactly the replay of the entries up to its cursor, and perhaps a partial effect
      of the one after; everything it still needs is in the table. */
  ghost predicate PeerInv(s: System, p: Peer)
    requires Sorted(s.log)
  {
    var k := Upto(s.log, p.cursor);
    s.dropped <= k && 0 <= p.cursor <= LastSeq(s.log) && Near(s.log, k, ViewOf(p.replica))
  }

  ghost predicate Inv(s: System) {
    && s.dropped <= |s.log| && Sorted(s.log) && Positive(s.log)
    && forall f | 0 <= f < |s.peers| :: PeerInv(s, s.peers[f])
  }

  lemma FirstOfRest<T>(s: seq<T>, k: nat, limit: nat)
    requires k <= |s|
    ensures (if |s[k..]| <= limit then s[k..] else s[k..][..limit]) == s[k..Min(k + limit, |s|)]
  {
    if |s| - k > limit {
      assert s[k..][..limit] == s[k..k + limit];
    }
  }

  /** What a follower is sent is the stretch of the log right after its cursor. */
  lemma FetchIsNext(log: seq<WopEntry>, dropped: nat, cursor: int, limit: nat)
    requires Sorted(log) && dropped <= Upto(log, cursor)
    ensures var k := Upto(log, cursor);
            ListSince(log[dropped..], cursor, limit) == log[k..Min(k + limit, |log|)]
  {
    SinceAfterDrop(log, dropped, cursor);
    FirstOfRest(log, Upto(log, cursor), limit);
  }

  lemma {:induction false} ReplayedGrows(v: View, log: seq<WopEntry>, more: seq<WopEntry>, i: nat, j: nat)
    requires i <= j <= |log|
    ensures Replayed(v, log + more, i, j) == Replayed(v, log, i, j)
    decreases j
  {
    if i != j {
      ReplayedGrows(v, log, more, i, j - 1);
    }
  }

  lemma {:induction false} UptoGrows(log: seq<WopEntry>, e: WopEntry, c: int)
    requires c < e.seqNo
    ensures Upto(log + [e], c) == Upto(log, c)
  {
    if log != [] {
      assert (log + [e])[1..] == log[1..] + [e];
      UptoGrows(log[1..], e, c);
    }
  }

  lemma AppendKeeps(s: System, e: WopEntry, p: Peer)
    requires Inv(s) && Enabled(s, Append(e)) && PeerInv(s, p)
    ensures Sorted(s.log + [e]) && PeerInv(Apply(s, Append(e)), p)
  {
    UptoGrows(s.log, e, p.cursor);
    ReplayedGrows(BLANK, s.log, [e], 0, Upto(s.log, p.cursor));
  }

  lemma CursorAfter(log: seq<WopEntry>, cursor: int, k': nat)
    requires Sorted(log) && 0 <= cursor <= LastSeq(log) && Upto(log, cursor) < k' <= |log|
    ensures 0 <= cursor < log[k' - 1].seqNo <= LastSeq(log)
    ensures Upto(log, log[k' - 1].seqNo) == k'
  {
    UptoSplits(log, cursor);
    UptoIs(log, log[k' - 1].seqNo, k');
  }

  lemma AbsorbKeeps(log: seq<WopEntry>, p: Peer, m: nat, calls: seq<Calls>)
    requires Sorted(log) && 0 <= p.cursor <= LastSeq(log) && Upto(log, p.cursor) <= m <= |log|
    requires |calls| == m - Upto(log, p.cursor) && Near(log, Upto(log, p.cursor), ViewOf(p.replica))
    ensures var k := Upto(log, p.cursor);
            var p' := Absorb(p, log[k..m], calls).0;
            && k <= Upto(log, p'.cursor) && 0 <= p'.cursor <= LastSeq(log)
            && Near(log, Upto(log, p'.cursor), ViewOf(p'.replica))
  {
    var k := Upto(log, p.cursor);
    var k' := BatchIsPrefix(log, k, m, p.replica, calls, NOTHING_YET);
    if k' > k {
      CursorAfter(log, p.cursor, k');
    }
  }

  /** A sync absorbs the stretch right after the cursor. */
  lemma SyncAbsorbs(s: System, f: nat, limit: nat, calls: seq<Calls>)
    requires Sorted(s.log) && Enabled(s, Sync(f, limit, calls)) && s.dropped <= Upto(s.log, s.peers[f].cursor)
    ensures var k := Upto(s.log, s.peers[f].cursor);
            var m := Min(k + limit, |s.log|);
            && |calls| == m - k
            && Apply(s, Sync(f, limit, calls)) == s.(peers := s.peers[f := Absorb(s.peers[f], s.log[k..m], calls).0])
  {
    FetchIsNext(s.log, s.dropped, s.peers[f].cursor, limit);
  }

  lemma AbsorbKeepsPeer(s: System, p: Peer, m: nat, calls: seq<Calls>)
    requires Inv(s) && PeerInv(s, p) && Upto(s.log, p.cursor) <= m <= |s.log|
    requires |calls| == m - Upto(s.log, p.cursor)
    ensures PeerInv(s, Absorb(p, s.log[Upto(s.log, p.cursor)..m], calls).0)
  {
    AbsorbKeeps(s.log, p, m, calls);
  }

  lemma SyncKeeps(s: System, f: nat, limit: nat, calls: seq<Calls>)
    requires Inv(s) && Enabled(s, Sync(f, limit, calls)) && PeerInv(s, s.peers[f])
    ensures PeerInv(s, Apply(s, Sync(f, limit, calls)).peers[f])
  {
    SyncAbsorbs(s, f, limit, calls);
    AbsorbKeepsPeer(s, s.peers[f], Min(Upto(s.log, s.peers[f].cursor) + limit, |s.log|), calls);
  }

  /** The leader's pruning leaves every follower's next entries in the table. */
  lemma PruneKeeps(s: System, before: int, p: Peer)
    requires Inv(s) && Enabled(s, Prune(before)) && PeerInv(s, p) && before <= p.cursor + 1
    ensures PeerInv(Apply(s, Prune(before)), p)
  {
    var t := Table(s);
    SinceIsSuffix(t, before - 1);
    UptoSplits(t, before - 1);
    UptoSplits(s.log, p.cursor);
    var d := Upto(t, before - 1);
    if d > 0 {
      assert t[d - 1] == s.log[s.dropped + d - 1];
    }
  }

  lemma StepInv(s: System, step: Step)
    requires Inv(s) && Enabled(s, step)
    ensures Inv(Apply(s, step))
  {
    var s' := Apply(s, step);
    match step
    case Append(e) =>
      forall f | 0 <= f < |s.peers| ensures PeerInv(s', s'.peers[f]) {
        AppendKeeps(s, e, s.peers[f]);
      }
    case Sync(f, limit, calls) =>
      assert PeerInv(s, s.peers[f]);
      SyncKeeps(s, f, limit, calls);
      forall g | 0 <= g < |s.peers| ensures PeerInv(s', s'.peers[g]) {
        assert PeerInv(s, s'.peers[g]);
      }
    case Prune(before) =>
      forall f | 0 <= f < |s.peers| ensures PeerInv(s', s'.peers[f]) {
        PruneKeeps(s, before, s.peers[f]);
      }
  }

  lemma {:induction false} RunInv(s: System, steps: seq<Step>)
    requires Inv(s) && CanRun(s, steps)
    ensures Inv(After(s, steps))
    decreases |steps|
  {
    if steps != [] {
      StepInv(s, steps[0]);
      RunInv(Apply(s, steps[0]), steps[1..]);
    }
  }

  lemma PeerAfterRun(followers: nat, steps: seq<Step>, f: nat)
    requires CanRun(Start(followers), steps) && f < |After(Start(followers), steps).peers|
    ensures var s := After(Start(followers), steps);
            s.dropped <= |s.log| && Sorted(s.log) && PeerInv(s, s.peers[f])
  {
    assert Inv(Start(followers));
    RunInv(Start(followers), steps);
  }

  lemma PartialView(v: View, e: WopEntry, w: View)
    requires Partial(v, e, w)
    ensures w.merges == v.merges
    ensures w.rows == v.rows || (IsMerge(e) && w.rows == Effect(v, e).rows)
    ensures w.vectorIds == v.vectorIds || w.vectorIds == Effect(v, e).vectorIds
  {
  }

  /** After any run, a follower's rows are the replay of exactly the entries up to its cursor; the one
      exception is a merge it is about to retry, whose tombstone may already be set. Its merge facts are
      exactly those of the finished entries, and its stored vectors are theirs plus at most the vector of
      the commit it is about to retry. */
  lemma PrefixRefinement(followers: nat, steps: seq<Step>, f: nat)
    requires CanRun(Start(followers), steps) && f < |After(Start(followers), steps).peers|
    ensures var s := After(Start(followers), steps);
            var p := s.peers[f];
            var k := Upto(s.log, p.cursor);
            var done := Replayed(BLANK, s.log, 0, k);
            && Sorted(s.log) && s.dropped <= k
            && p.replica.merges == done.merges
            && (p.replica.rows == done.rows
                || (k < |s.log| && IsMerge(s.log[k])
                    && p.replica.rows == Replayed(BLANK, s.log, 0, k + 1).rows))
            && (p.replica.vectors.Keys == done.vectorIds
                || (k < |s.log| && p.replica.vectors.Keys == Replayed(BLANK, s.log, 0, k + 1).vectorIds))
  {
    PeerAfterRun(followers, steps, f);
    var s := After(Start(followers), steps);
    var k := Upto(s.log, s.peers[f].cursor);
    var done := Replayed(BLANK, s.log, 0, k);
    if ViewOf(s.peers[f].replica) != done {
      PartialView(done, s.log[k], ViewOf(s.peers[f].replica));
    }
  }

  /** No entry is skipped: the next batch starts with the first entry after the finished ones, whatever has
      been pruned, and holds as many of the following entries as the limit allows. */
  lemma NextBatchIsNext(followers: nat, steps: seq<Step>, f: nat, limit: nat)
    requires CanRun(Start(followers), steps) && f < |After(Start(followers), steps).peers|
    ensures var s := After(Start(followers), steps);
            var k := Upto(s.log, s.peers[f].cursor);
            && s.dropped <= |s.log|
            && ListSince(Table(s), s.peers[f].cursor, limit) == s.log[k..Min(k + limit, |s.log|)]
  {
    PeerAfterRun(followers, steps, f);
    var s := After(Start(followers), steps);
    FetchIsNext(s.log, s.dropped, s.peers[f].cursor, limit);
  }
}
