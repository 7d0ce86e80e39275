/**
 Leader, log and followers in one run: the leader acts, logs and reconciles, followers pull batches of any size with
 any failures, and the log is pruned behind them. Every follower has the live rows that the leader had at some moment
 of the run, and those of now once its cursor has reached the last entry.
 */
module ConvergenceRuns {
  import opened Items
  import opened Replay
  import opened WopTable
  import opened Replication
  import opened Convergence

  /** The leader's rows, and its log with the followers that read it. */
  datatype Cluster = Cluster(rows: Rows, system: System)

  datatype Event = Lead(action: Action, at: nat) | Follow(step: Step)

  function Found(followers: nat): Cluster {
    Cluster(map[], Start(followers))
  }

  predicate Possible(c: Cluster, e: Event) {
    match e
    case Lead(action, _) => Current(c.rows, action)
    case Follow(step) => !step.Append? && Enabled(c.system, step)
  }

  /** The leader's part of the cluster. */
  function LeaderOf(c: Cluster): Leader {
    Leader(c.rows, c.system.log)
  }

  function Happen(c: Cluster, e: Event): Cluster
    requires Possible(c, e)
  {
    match e
    case Lead(action, at) =>
      var leader := Act(LeaderOf(c), action, at);
      Cluster(leader.rows, c.system.(log := leader.log))
    case Follow(step) => c.(system := Apply(c.system, step))
  }

  /** The first `n` events can happen one after the other. */
  predicate CanHappen(c: Cluster, events: seq<Event>, n: nat)
    requires n <= |events|
    decreases n, 0
  {
    n == 0 || (CanHappen(c, events, n - 1) && Possible(Happened(c, events, n - 1), events[n - 1]))
  }

  function Happened(c: Cluster, events: seq<Event>, n: nat): Cluster
    requires n <= |events| && CanHappen(c, events, n)
    decreases n, 1
  {
    if n == 0 then c else Happen(Happened(c, events, n - 1), events[n - 1])
  }

  // ---------------------------------------------------------------- what every event keeps

  /** Entries are numbered from 1 on without a gap. */
  predicate Numbered(log: seq<WopEntry>) {
    forall i | 0 <= i < |log| :: log[i].seqNo == i + 1
  }

  ghost predicate Sound(c: Cluster) {
    Inv(c.system) && Numbered(c.system.log) && InStep(LeaderOf(c))
  }

  lemma EntryIsNext(action: Action, seqNo: int, at: nat)
    ensures var entry := Entry(action, seqNo, at); |entry| <= 1 && (entry != [] ==> entry[0].seqNo == seqNo)
  {
  }

  /** A leader action is an append for the followers, or nothing. */
  lemma LeadAppends(c: Cluster, action: Action, at: nat)
    requires c.system.dropped <= |c.system.log| && Numbered(c.system.log) && Current(c.rows, action)
    ensures var entry := Entry(action, |c.system.log| + 1, at);
            var system' := Happen(c, Lead(action, at)).system;
            && Numbered(system'.log)
            && (entry == [] ==> system' == c.system)
            && (entry != [] ==> Enabled(c.system, Append(entry[0])) && system' == Apply(c.system, Append(entry[0])))
  {
    var entry := Entry(action, |c.system.log| + 1, at);
    EntryIsNext(action, |c.system.log| + 1, at);
    if entry == [] {
      assert c.system.log + entry == c.system.log;
    } else {
      assert entry == [entry[0]];
    }
  }

  lemma LeadKeepsInv(c: Cluster, action: Action, at: nat)
    requires Inv(c.system) && Numbered(c.system.log) && Current(c.rows, action)
    ensures Inv(Happen(c, Lead(action, at)).system)
  {
    LeadAppends(c, action, at);
    var entry := Entry(action, |c.system.log| + 1, at);
    if entry != [] {
      StepInv(c.system, Append(entry[0]));
    }
  }

  lemma EventKeepsSound(c: Cluster, e: Event)
    requires Sound(c) && Possible(c, e)
    ensures Sound(Happen(c, e))
  {
    match e
    case Lead(action, at) =>
      LeadAppends(c, action, at);
      LeadKeepsInv(c, action, at);
      ActKeepsInStep(LeaderOf(c), action, at);
    case Follow(step) =>
      StepInv(c.system, step);
  }

  lemma {:induction false} RunKeepsSound(c: Cluster, events: seq<Event>, n: nat)
    requires Sound(c) && n <= |events| && CanHappen(c, events, n)
    ensures Sound(Happened(c, events, n))
  {
    if n > 0 {
      RunKeepsSound(c, events, n - 1);
      EventKeepsSound(Happened(c, events, n - 1), events[n - 1]);
    }
  }

  lemma FoundIsSound(followers: nat)
    ensures Sound(Found(followers))
  {
  }

  lemma RunIsSound(followers: nat, events: seq<Event>, n: nat)
    requires n <= |events| && CanHappen(Found(followers), events, n)
    ensures Sound(Happened(Found(followers), events, n))
  {
    FoundIsSound(followers);
    RunKeepsSound(Found(followers), events, n);
  }

  // ---------------------------------------------------------------- what a follower holds

  lemma EventExtendsLog(c: Cluster, e: Event)
    requires Possible(c, e)
    ensures c.system.log <= Happen(c, e).system.log && |Happen(c, e).system.log| <= |c.system.log| + 1
  {
    if e.Lead? {
      EntryIsNext(e.action, |c.system.log| + 1, e.at);
    }
  }

  /** Every prefix of the log was the whole log at some moment. */
  lemma {:induction false} WasTheLog(c: Cluster, events: seq<Event>, n: nat, k: nat) returns (j: nat)
    requires n <= |events| && CanHappen(c, events, n)
    requires |c.system.log| <= k <= |Happened(c, events, n).system.log|
    ensures j <= n && CanHappen(c, events, j)
    ensures Happened(c, events, j).system.log == Happened(c, events, n).system.log[..k]
  {
    var log := Happened(c, events, n).system.log;
    if k == |log| {
      j := n;
    } else {
      EventExtendsLog(Happened(c, events, n - 1), events[n - 1]);
      j := WasTheLog(c, events, n - 1, k);
    }
  }

  /** The leader was covered by the replay of a prefix when that prefix was its log. */
  lemma AgreedThen(followers: nat, events: seq<Event>, n: nat, k: nat) returns (j: nat)
    requires n <= |events| && CanHappen(Found(followers), events, n)
    requires k <= |Happened(Found(followers), events, n).system.log|
    ensures j <= n && CanHappen(Found(followers), events, j)
    ensures var log := Happened(Found(followers), events, n).system.log;
            && Happened(Found(followers), events, j).system.log == log[..k]
            && Covered(Happened(Found(followers), events, j).rows, Replayed(BLANK, log, 0, k).rows)
  {
    var log := Happened(Found(followers), events, n).system.log;
    j := WasTheLog(Found(followers), events, n, k);
    RunIsSound(followers, events, j);
    ReplayedGrows(BLANK, log[..k], log[k..], 0, k);
    assert log[..k] + log[k..] == log;
  }

  /** What a follower's invariant says about its rows. */
  lemma PeerRows(s: System, p: Peer)
    requires Sorted(s.log) && PeerInv(s, p)
    ensures var k := Upto(s.log, p.cursor);
            || p.replica.rows == Replayed(BLANK, s.log, 0, k).rows
            || (k < |s.log| && IsMerge(s.log[k]) && p.replica.rows == Replayed(BLANK, s.log, 0, k + 1).rows)
  {
    var k := Upto(s.log, p.cursor);
    var done := Replayed(BLANK, s.log, 0, k);
    if ViewOf(p.replica) != done {
      PartialView(done, s.log[k], ViewOf(p.replica));
    }
  }

  /** At any time a follower has the live rows that the leader had at some moment of the run: when the log ended with
      the entry at the follower's cursor or, while a merge is being retried, with the one after it. */
  lemma FollowerHoldsAFormerState(followers: nat, events: seq<Event>, f: nat) returns (j: nat)
    requires CanHappen(Found(followers), events, |events|)
    requires f < |Happened(Found(followers), events, |events|).system.peers|
    ensures j <= |events| && CanHappen(Found(followers), events, j)
    ensures var system := Happened(Found(followers), events, |events|).system;
            var former := Happened(Found(followers), events, j);
            var k := Upto(system.log, system.peers[f].cursor);
            && (|| former.system.log == system.log[..k]
                || (k < |system.log| && IsMerge(system.log[k]) && former.system.log == system.log[..k + 1]))
            && Covered(former.rows, system.peers[f].replica.rows)
  {
    RunIsSound(followers, events, |events|);
    var system := Happened(Found(followers), events, |events|).system;
    var p := system.peers[f];
    assert PeerInv(system, p);
    PeerRows(system, p);
    var k := Upto(system.log, p.cursor);
    if p.replica.rows == Replayed(BLANK, system.log, 0, k).rows {
      j := AgreedThen(followers, events, |events|, k);
    } else {
      j := AgreedThen(followers, events, |events|, k + 1);
    }
  }

  /** No event removes rows at the leader. */
  predicate NoRemoval(events: seq<Event>, n: nat)
    requires n <= |events|
  {
    forall i | 0 <= i < n :: events[i].Lead? ==> !events[i].action.Remove?
  }

  lemma {:induction false} EqualWithoutRemoval(followers: nat, events: seq<Event>, n: nat)
    requires n <= |events| && CanHappen(Found(followers), events, n) && NoRemoval(events, n)
    ensures var leader := LeaderOf(Happened(Found(followers), events, n)); Converged(leader.rows, FollowerOf(leader))
  {
    if n > 0 {
      EqualWithoutRemoval(followers, events, n - 1);
      RunIsSound(followers, events, n - 1);
      var e := events[n - 1];
      if e.Lead? {
        ActKeepsInStep(LeaderOf(Happened(Found(followers), events, n - 1)), e.action, e.at);
      }
    }
  }

  /** A follower whose cursor has reached the last entry has the leader's live rows of now; if the leader never
      removed a row, it has all its rows. */
  lemma CaughtUpFollowerAgrees(followers: nat, events: seq<Event>, f: nat)
    requires CanHappen(Found(followers), events, |events|)
    requires f < |Happened(Found(followers), events, |events|).system.peers|
    requires var system := Happened(Found(followers), events, |events|).system;
             LastSeq(system.log) <= system.peers[f].cursor
    ensures var c := Happened(Found(followers), events, |events|);
            && Covered(c.rows, c.system.peers[f].replica.rows)
            && (NoRemoval(events, |events|) ==> Converged(c.rows, c.system.peers[f].replica.rows))
  {
    RunIsSound(followers, events, |events|);
    var c := Happened(Found(followers), events, |events|);
    var p := c.system.peers[f];
    assert PeerInv(c.system, p);
    UptoSplits(c.system.log, p.cursor);
    PeerRows(c.system, p);
    if NoRemoval(events, |events|) {
      EqualWithoutRemoval(followers, events, |events|);
    }
  }
}
