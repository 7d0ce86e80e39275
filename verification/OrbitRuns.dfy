/** What a follower ends up holding when it follows through several lives. A lost campaign resumes it at the end
    of its own log, which is not compared with the cursor it had reached. */
module OrbitRuns {
  import opened Basics
  import opened TextFormat
  import opened Items
  import opened Replay
  import opened WopTable
  import opened Replication
  import opened Redelivery
  import opened FollowerLoop
  import opened Orbit

  // ---------------------------------------------------------------- fed by one leader log

  /** What the leader answers is a range query on its log as it was at some time. */
  ghost predicate FedAt(log: seq<WopEntry>, epoch: nat, cursor: int, x: Exchange) {
    x.Answered? && (epoch == 0 || epoch <= x.leaderEpoch) ==>
      exists m: nat, limit: nat :: m <= |log| && x.entries == ListSince(log[..m], cursor, limit)
  }

  /** The first `n` rounds of a follower that starts as `p`. */
  ghost predicate Fed(log: seq<WopEntry>, p: Peer, epoch: nat, rounds: seq<Exchange>, n: nat)
    requires n <= |rounds| && AllWellFormed(rounds)
  {
    n == 0 || (&& Fed(log, p, epoch, rounds, n - 1)
               && FedAt(log, epoch, PeerAfter(p, epoch, rounds, n - 1).cursor, rounds[n - 1]))
  }

  lemma UptoOfPrefix(log: seq<WopEntry>, m: nat, c: int)
    requires Sorted(log) && m <= |log|
    ensures Upto(log[..m], c) == Min(Upto(log, c), m)
  {
    UptoSplits(log, c);
    UptoIs(log[..m], c, Min(Upto(log, c), m));
  }

  /** An answer is the stretch right after the cursor, as far as the limit and the log of that time go. */
  lemma FedIsNext(log: seq<WopEntry>, m: nat, cursor: int, limit: nat) returns (j: nat)
    requires Sorted(log) && m <= |log|
    ensures Upto(log, cursor) <= j <= |log|
    ensures ListSince(log[..m], cursor, limit) == log[Upto(log, cursor)..j]
  {
    var k := Upto(log, cursor);
    UptoOfPrefix(log, m, cursor);
    var part := log[..m];
    assert part[0..] == part;
    FetchIsNext(part, 0, cursor, limit);
    if k <= m {
      j := Min(k + limit, m);
      SliceOfPrefix(log, m, k, j);
    } else {
      j := k;
    }
  }

  lemma SliceOfPrefix<T>(s: seq<T>, m: nat, i: nat, j: nat)
    requires i <= j <= m <= |s|
    ensures s[..m][i..j] == s[i..j]
  {
  }

  // ---------------------------------------------------------------- staying on course

  /** Everything the follower still has to see is after its cursor. */
  ghost predicate Kept(log: seq<WopEntry>, p: Peer)
    requires Sorted(log)
  {
    && 0 <= p.cursor
    && exists high: nat :: && Upto(log, p.cursor) <= high <= |log|
                           && OnCourse(log, Upto(log, p.cursor), high, ViewOf(p.replica))
  }

  lemma StepKeepsCourse(log: seq<WopEntry>, k: nat, high: nat, r: Replica, calls: Calls) returns (high': nat)
    requires k < |log| && k <= high <= |log| && OnCourse(log, k, high, ViewOf(r))
    ensures var (r', result) := ReplayStep(r, log[k], calls);
            var k' := if result.Ok? then k + 1 else k;
            k' <= high' <= |log| && OnCourse(log, k', high', ViewOf(r'))
  {
    AttemptKeepsCourse(log, Delivery(k, high, r), calls);
    high' := Deliver(log, Delivery(k, high, r), Attempt(calls)).high;
  }

  /** A batch is its first entry and, if that one is finished, the rest. */
  lemma BatchUnrolls(log: seq<WopEntry>, k: nat, m: nat, r: Replica, calls: seq<Calls>, acc: ReplayOutcome)
    requires k < m <= |log| && |calls| == m - k
    ensures var (r1, result) := ReplayStep(r, log[k], calls[0]);
            ReplayBatch(r, log[k..m], calls, acc)
            == if result.Ok? then ReplayBatch(r1, log[k + 1..m], calls[1..], Tally(acc, result.value, log[k].seqNo))
               else (r1, acc.(failed := true, permanent := result.error == Permanent))
  {
    assert log[k..m][0] == log[k] && log[k..m][1..] == log[k + 1..m];
  }

  /** The position up to which a batch is finished. */
  function Finished(log: seq<WopEntry>, k: nat, m: nat, r: Replica, calls: seq<Calls>): (k': nat)
    requires k <= m <= |log| && |calls| == m - k
    ensures k <= k' <= m
    decreases m - k
  {
    if k == m || ReplayStep(r, log[k], calls[0]).1.Err? then k
    else Finished(log, k + 1, m, ReplayStep(r, log[k], calls[0]).0, calls[1..])
  }

  lemma {:induction false} BatchTallies(log: seq<WopEntry>, k: nat, m: nat, r: Replica, calls: seq<Calls>,
                                        acc: ReplayOutcome)
    requires k <= m <= |log| && |calls| == m - k && Sorted(log)
    ensures var k' := Finished(log, k, m, r, calls);
            ReplayBatch(r, log[k..m], calls, acc).1.lastAppliedSeq
            == (if k' == k then acc.lastAppliedSeq else Max(acc.lastAppliedSeq, log[k' - 1].seqNo))
    decreases m - k
  {
    if k < m {
      var (r1, result) := ReplayStep(r, log[k], calls[0]);
      BatchUnrolls(log, k, m, r, calls, acc);
      if result.Ok? {
        BatchTallies(log, k + 1, m, r1, calls[1..], Tally(acc, result.value, log[k].seqNo));
      }
    }
  }

  lemma {:induction false} BatchKeepsCourse(log: seq<WopEntry>, k: nat, m: nat, high: nat, r: Replica,
                                            calls: seq<Calls>, acc: ReplayOutcome)
    returns (high': nat)
    requires k <= m <= |log| && k <= high <= |log| && |calls| == m - k
    requires OnCourse(log, k, high, ViewOf(r))
    ensures Finished(log, k, m, r, calls) <= high' <= |log|
    ensures OnCourse(log, Finished(log, k, m, r, calls), high', ViewOf(ReplayBatch(r, log[k..m], calls, acc).0))
    decreases m - k
  {
    if k == m {
      high' := high;
    } else {
      var (r1, result) := ReplayStep(r, log[k], calls[0]);
      BatchUnrolls(log, k, m, r, calls, acc);
      var next := StepKeepsCourse(log, k, high, r, calls[0]);
      if result.Ok? {
        high' := BatchKeepsCourse(log, k + 1, m, next, r1, calls[1..], Tally(acc, result.value, log[k].seqNo));
      } else {
        high' := next;
      }
    }
  }

  lemma CursorFollows(log: seq<WopEntry>, cursor: int, k': nat, last: int)
    requires Sorted(log) && Positive(log) && 0 <= cursor && Upto(log, cursor) <= k' <= |log|
    requires last == if k' == Upto(log, cursor) then 0 else Max(0, log[k' - 1].seqNo)
    ensures var cursor' := if last > cursor then last else cursor; Upto(log, cursor') == k' && cursor <= cursor'
  {
    UptoSplits(log, cursor);
    if k' > Upto(log, cursor) {
      assert log[k' - 1].seqNo > cursor;
      UptoIs(log, log[k' - 1].seqNo, k');
    }
  }

  /** The follower after a batch stands right after the entries it finished. */
  lemma AbsorbMoves(log: seq<WopEntry>, p: Peer, j: nat, calls: seq<Calls>)
    requires Sorted(log) && Positive(log) && 0 <= p.cursor && Upto(log, p.cursor) <= j <= |log|
    requires |calls| == j - Upto(log, p.cursor)
    ensures var k := Upto(log, p.cursor);
            var p' := Absorb(p, log[k..j], calls).0;
            && p.cursor <= p'.cursor && Upto(log, p'.cursor) == Finished(log, k, j, p.replica, calls)
            && p'.replica == ReplayBatch(p.replica, log[k..j], calls, NOTHING_YET).0
  {
    var k := Upto(log, p.cursor);
    BatchTallies(log, k, j, p.replica, calls, NOTHING_YET);
    CursorFollows(log, p.cursor, Finished(log, k, j, p.replica, calls),
                  ReplayBatch(p.replica, log[k..j], calls, NOTHING_YET).1.lastAppliedSeq);
  }

  lemma KeptFrom(log: seq<WopEntry>, p: Peer, k: nat, high: nat)
    requires Sorted(log) && 0 <= p.cursor && Upto(log, p.cursor) == k <= high <= |log|
    requires OnCourse(log, k, high, ViewOf(p.replica))
    ensures Kept(log, p)
  {
  }

  lemma AbsorbKeepsCourse(log: seq<WopEntry>, p: Peer, j: nat, calls: seq<Calls>)
    requires Sorted(log) && Positive(log) && Kept(log, p) && Upto(log, p.cursor) <= j <= |log|
    requires |calls| == j - Upto(log, p.cursor)
    ensures var p' := Absorb(p, log[Upto(log, p.cursor)..j], calls).0; Kept(log, p') && p.cursor <= p'.cursor
  {
    var k := Upto(log, p.cursor);
    var high: nat :| k <= high <= |log| && OnCourse(log, k, high, ViewOf(p.replica));
    var high' := BatchKeepsCourse(log, k, j, high, p.replica, calls, NOTHING_YET);
    AbsorbMoves(log, p, j, calls);
    KeptFrom(log, Absorb(p, log[k..j], calls).0, Finished(log, k, j, p.replica, calls), high');
  }

  lemma RoundKeepsCourse(log: seq<WopEntry>, p: Peer, epoch: nat, x: Exchange)
    requires Sorted(log) && Positive(log) && Kept(log, p) && WellFormed(x) && FedAt(log, epoch, p.cursor, x)
    ensures var p' := Exchanged(p, epoch, x).0; Kept(log, p') && p.cursor <= p'.cursor
  {
    if x.Answered? && (epoch == 0 || epoch <= x.leaderEpoch) {
      var m: nat, limit: nat :| m <= |log| && x.entries == ListSince(log[..m], p.cursor, limit);
      var j := FedIsNext(log, m, p.cursor, limit);
      AbsorbKeepsCourse(log, p, j, x.calls);
    }
  }

  lemma {:induction false} RoundsKeepCourse(log: seq<WopEntry>, p: Peer, epoch: nat, rounds: seq<Exchange>, n: nat)
    requires Sorted(log) && Positive(log) && Kept(log, p) && AllWellFormed(rounds) && n <= |rounds|
    requires Fed(log, p, epoch, rounds, n)
    ensures var p' := PeerAfter(p, epoch, rounds, n); Kept(log, p') && p.cursor <= p'.cursor
  {
    if n > 0 {
      RoundsKeepCourse(log, p, epoch, rounds, n - 1);
      var before := PeerAfter(p, epoch, rounds, n - 1);
      assert rounds[n - 1] in rounds && FedAt(log, epoch, before.cursor, rounds[n - 1]);
      RoundKeepsCourse(log, before, epoch, rounds[n - 1]);
    }
  }

  lemma UptoRises(log: seq<WopEntry>, c: int, d: int)
    requires Sorted(log) && c <= d
    ensures Upto(log, c) <= Upto(log, d)
  {
    UptoSplits(log, c);
    UptoSplits(log, d);
  }

  /** Resuming at or before the cursor keeps the course. */
  lemma ResumeKeepsCourse(log: seq<WopEntry>, p: Peer, resumed: int)
    requires Sorted(log) && Kept(log, p) && 0 <= resumed <= p.cursor
    ensures Kept(log, Peer(resumed, p.replica))
  {
    var pos := Upto(log, p.cursor);
    var high: nat :| pos <= high <= |log| && OnCourse(log, pos, high, ViewOf(p.replica));
    UptoRises(log, resumed, p.cursor);
    RewindKeepsCourse(log, Upto(log, resumed), pos, high, ViewOf(p.replica));
  }

  /** On course with nothing left to see is having seen everything exactly once. */
  lemma CaughtUp(log: seq<WopEntry>, p: Peer)
    requires Sorted(log) && Kept(log, p) && LastSeq(log) <= p.cursor
    ensures Same(ViewOf(p.replica), Replayed(BLANK, log, 0, |log|))
  {
    UptoSplits(log, p.cursor);
    assert Upto(log, p.cursor) == |log|;
  }

  // ---------------------------------------------------------------- one resume

  lemma NearIsKept(log: seq<WopEntry>, cursor: int, r: Replica)
    requires Sorted(log) && 0 <= cursor && Near(log, Upto(log, cursor), ViewOf(r))
    ensures Kept(log, Peer(cursor, r))
  {
    var k := Upto(log, cursor);
    var done := Replayed(BLANK, log, 0, k);
    if ViewOf(r) == done {
      assert OnCourse(log, k, k, ViewOf(r));
    } else {
      PartialAbsorbed(done, log[k], ViewOf(r));
      ReplayedHead(ViewOf(r), log, k, k + 1);
      assert OnCourse(log, k, k + 1, ViewOf(r));
    }
  }

  /** A follower as replication leaves it, with this cursor, that resumes at `resumed` and catches up holds what
      the leader's log says: for every log, every state it may be in, and every run of rounds. */
  ghost predicate LosesNothing(cursor: int, resumed: int) {
    forall log, r, epoch: nat, rounds |
      && Sorted(log) && Positive(log) && cursor <= LastSeq(log) && Near(log, Upto(log, cursor), ViewOf(r))
      && AllWellFormed(rounds) && Fed(log, Peer(resumed, r), epoch, rounds, |rounds|)
      && LastSeq(log) <= PeerAfter(Peer(resumed, r), epoch, rounds, |rounds|).cursor ::
      Same(ViewOf(PeerAfter(Peer(resumed, r), epoch, rounds, |rounds|).replica), Replayed(BLANK, log, 0, |log|))
  }

  /** Resuming loses nothing exactly when it is at or before the cursor, which a follower can see. */
  lemma ResumeLosesNothingIff(cursor: int, resumed: int)
    requires 0 <= cursor && 0 <= resumed
    ensures LosesNothing(cursor, resumed) <==> resumed <= cursor
  {
    if resumed <= cursor {
      forall log, r, epoch: nat, rounds |
        && Sorted(log) && Positive(log) && cursor <= LastSeq(log) && Near(log, Upto(log, cursor), ViewOf(r))
        && AllWellFormed(rounds) && Fed(log, Peer(resumed, r), epoch, rounds, |rounds|)
        && LastSeq(log) <= PeerAfter(Peer(resumed, r), epoch, rounds, |rounds|).cursor
        ensures Same(ViewOf(PeerAfter(Peer(resumed, r), epoch, rounds, |rounds|).replica),
                     Replayed(BLANK, log, 0, |log|))
      {
        NearIsKept(log, cursor, r);
        ResumeKeepsCourse(log, Peer(cursor, r), resumed);
        RoundsKeepCourse(log, Peer(resumed, r), epoch, rounds, |rounds|);
        CaughtUp(log, PeerAfter(Peer(resumed, r), epoch, rounds, |rounds|));
      }
    } else {
      var log := OneCommit(resumed);
      var p := Peer(resumed, EMPTY);
      assert PeerAfter(p, 0, [], 0) == p && Fed(log, p, 0, [], 0);
      assert Upto(log, cursor) == 0 && Near(log, 0, ViewOf(EMPTY));
      assert !Same(ViewOf(p.replica), Replayed(BLANK, log, 0, |log|));
    }
  }

  const SAMPLE := MemoryItem("m", "ix", "s", "", "", "", Episodic, Working, "c", [], "0", 0, 0, 0, false, true)

  /** A leader's log that holds one commit. */
  lemma OneCommit(at: int) returns (log: seq<WopEntry>)
    requires at > 0
    ensures Sorted(log) && Positive(log) && LastSeq(log) == at && |log| == 1 && log[0].seqNo == at
    ensures CommitRef(log[0]).Some? && CommitItem(log[0]).id == "m"
    ensures "m" in Replayed(BLANK, log, 0, |log|).rows
  {
    log := [WopEntry(at, "commit", Envelope(SAMPLE, Some([])), 0)];
    assert ParseU64("0") == Some(0) by {
      DecimalRoundTrip(0);
      assert Decimal(0) == "0";
    }
    assert CommitRef(log[0]) == Some(0);
    assert Replayed(BLANK, log, 0, 1) == Effect(Replayed(BLANK, log, 0, 0), log[0]);
  }

  // ---------------------------------------------------------------- whole orbits

  /** How many of a life's rounds are used. */
  function Used(p: Peer, epoch: nat, limit: nat, rounds: seq<Exchange>): (n: nat)
    requires AllWellFormed(rounds)
    ensures n <= |rounds|
  {
    var n := Downfall(p, epoch, limit, rounds);
    if n.Some? then n.value else |rounds|
  }

  /** The follower at the end of a life, before it campaigns. */
  function AtEnd(p: Peer, epoch: nat, limit: nat, rounds: seq<Exchange>): Peer
    requires AllWellFormed(rounds)
  {
    PeerAfter(p, epoch, rounds, Used(p, epoch, limit, rounds))
  }

  /** The life is fed by the log and followed by a resume that loses nothing. */
  ghost predicate ResumeBelow(log: seq<WopEntry>, start: Peer, epoch: nat, limit: nat, life: Life) {
    && AllWellFormed(life.rounds)
    && Fed(log, start, epoch, life.rounds, Used(start, epoch, limit, life.rounds))
    && 0 <= Resume(life, start.cursor) <= AtEnd(start, epoch, limit, life.rounds).cursor
  }

  ghost predicate ResumesBelow(log: seq<WopEntry>, p: Peer, epoch: nat, limit: nat, lives: seq<Life>, k: nat)
    requires k <= |lives| && LivesWellFormed(lives)
  {
    k == 0 || (ResumesBelow(log, p, epoch, limit, lives, k - 1)
               && ResumeBelow(log, StartOf(p, epoch, limit, lives, k - 1), epoch, limit, lives[k - 1]))
  }

  lemma LifeKeepsCourse(log: seq<WopEntry>, start: Peer, epoch: nat, limit: nat, life: Life)
    requires Sorted(log) && Positive(log) && Kept(log, start) && ResumeBelow(log, start, epoch, limit, life)
    ensures Kept(log, Peer(Resume(life, start.cursor), LeftBehind(start, epoch, limit, life.rounds)))
  {
    RoundsKeepCourse(log, start, epoch, life.rounds, Used(start, epoch, limit, life.rounds));
    ResumeKeepsCourse(log, AtEnd(start, epoch, limit, life.rounds), Resume(life, start.cursor));
  }

  lemma NextLifeKeepsCourse(log: seq<WopEntry>, p: Peer, epoch: nat, limit: nat, lives: seq<Life>, k: nat)
    requires Sorted(log) && Positive(log) && 0 < k <= |lives| && LivesWellFormed(lives)
    requires Kept(log, StartOf(p, epoch, limit, lives, k - 1)) && ResumesBelow(log, p, epoch, limit, lives, k)
    ensures Kept(log, StartOf(p, epoch, limit, lives, k))
  {
    LifeKeepsCourse(log, StartOf(p, epoch, limit, lives, k - 1), epoch, limit, lives[k - 1]);
  }

  lemma {:induction false} LivesKeepCourse(log: seq<WopEntry>, p: Peer, epoch: nat, limit: nat, lives: seq<Life>,
                                           k: nat)
    requires Sorted(log) && Positive(log) && Kept(log, p) && k <= |lives| && LivesWellFormed(lives)
    requires ResumesBelow(log, p, epoch, limit, lives, k)
    ensures Kept(log, StartOf(p, epoch, limit, lives, k))
  {
    if k > 0 {
      LivesKeepCourse(log, p, epoch, limit, lives, k - 1);
      NextLifeKeepsCourse(log, p, epoch, limit, lives, k);
    }
  }

  /** Through any number of lives whose resumes are at or before the cursors reached, with any failures and
      redeliveries on the way, a follower that has caught up with the leader's log holds what one undisturbed
      replay of it gives. */
  lemma CaughtUpOrbitHasTheLog(log: seq<WopEntry>, epoch: nat, limit: nat, lives: seq<Life>, k: nat, n: nat)
    requires Sorted(log) && Positive(log) && k < |lives| && LivesWellFormed(lives)
    requires ResumesBelow(log, Peer(0, EMPTY), epoch, limit, lives, k)
    requires lives[k] in lives && n <= |lives[k].rounds|
    requires var start := StartOf(Peer(0, EMPTY), epoch, limit, lives, k);
             && Fed(log, start, epoch, lives[k].rounds, n)
             && LastSeq(log) <= PeerAfter(start, epoch, lives[k].rounds, n).cursor
    ensures var start := StartOf(Peer(0, EMPTY), epoch, limit, lives, k);
            Same(ViewOf(PeerAfter(start, epoch, lives[k].rounds, n).replica), Replayed(BLANK, log, 0, |log|))
  {
    var start := StartOf(Peer(0, EMPTY), epoch, limit, lives, k);
    StartsOnCourse(log);
    LivesKeepCourse(log, Peer(0, EMPTY), epoch, limit, lives, k);
    RoundsKeepCourse(log, start, epoch, lives[k].rounds, n);
    CaughtUp(log, PeerAfter(start, epoch, lives[k].rounds, n));
  }

  lemma StartsOnCourse(log: seq<WopEntry>)
    requires Sorted(log) && Positive(log)
    ensures Kept(log, Peer(0, EMPTY))
  {
    assert Upto(log, 0) == 0;
    assert OnCourse(log, 0, 0, ViewOf(EMPTY));
  }

  // ---------------------------------------------------------------- an orbit that skips a commit

  /** A leader that cannot be reached for long enough. */
  function Silence(limit: nat): seq<Exchange> {
    seq(Max(1, limit), _ => Exchange.Lost)
  }

  lemma {:induction false} SilenceTeachesNothing(p: Peer, epoch: nat, limit: nat, n: nat)
    requires n <= |Silence(limit)|
    ensures AllWellFormed(Silence(limit)) && PeerAfter(p, epoch, Silence(limit), n) == p
    ensures var history := History(p, epoch, Silence(limit));
            Count(history, TransportFailure, 0, n) == n && SinceExchange(history, n) == 0
  {
    var rounds := Silence(limit);
    if n > 0 {
      SilenceTeachesNothing(p, epoch, limit, n - 1);
      assert rounds[n - 1] == Exchange.Lost;
      assert Exchanged(p, epoch, Exchange.Lost) == (p, Err(Transport));
      assert History(p, epoch, rounds)[n - 1] == TransportFailure;
    }
  }

  lemma SilenceEndsALife(p: Peer, epoch: nat, limit: nat)
    ensures AllWellFormed(Silence(limit)) && Downfall(p, epoch, limit, Silence(limit)).Some?
    ensures AtEnd(p, epoch, limit, Silence(limit)) == p
  {
    var history := History(p, epoch, Silence(limit));
    SilenceTeachesNothing(p, epoch, limit, |Silence(limit)|);
    FirstDownIs(history, |history|, limit);
    assert GivesUp(history, |history|, limit);
    SilenceTeachesNothing(p, epoch, limit, Used(p, epoch, limit, Silence(limit)));
  }

  /** Nothing of a log is sent to a follower that stands at or after its end. */
  lemma {:induction false} NothingToFeed(log: seq<WopEntry>, p: Peer, epoch: nat, rounds: seq<Exchange>, n: nat)
    requires Sorted(log) && LastSeq(log) <= p.cursor && 0 <= p.cursor && AllWellFormed(rounds) && n <= |rounds|
    requires Fed(log, p, epoch, rounds, n)
    ensures PeerAfter(p, epoch, rounds, n) == p
  {
    if n > 0 {
      NothingToFeed(log, p, epoch, rounds, n - 1);
      var x := rounds[n - 1];
      assert x in rounds;
      if x.Answered? && (epoch == 0 || epoch <= x.leaderEpoch) {
        var m: nat, limit: nat :| m <= |log| && x.entries == ListSince(log[..m], p.cursor, limit);
        var j := FedIsNext(log, m, p.cursor, limit);
        UptoSplits(log, p.cursor);
        assert x.entries == [];
      }
    }
  }

  /** A follower at the start of the leader's log loses its leader and its campaign, and its own log happens to
      end at `at`, where the leader's only entry, a commit, is numbered. In its next life it is never sent the
      commit, however long it is fed, although its cursor says that it has caught up. */
  lemma LostCampaignSkipsCommit(at: int, epoch: nat, limit: nat, rounds: seq<Exchange>)
    returns (log: seq<WopEntry>, lives: seq<Life>)
    requires at > 0 && AllWellFormed(rounds)
    ensures Sorted(log) && Positive(log) && LastSeq(log) == at && "m" in Replayed(BLANK, log, 0, |log|).rows
    ensures LivesWellFormed(lives) && |lives| == 2 && lives[1].rounds == rounds
    ensures AllLost(Peer(0, EMPTY), epoch, limit, lives, 1)
    ensures var start := StartOf(Peer(0, EMPTY), epoch, limit, lives, 1);
            && start == Peer(at, EMPTY)
            && forall n: nat | n <= |rounds| && Fed(log, start, epoch, rounds, n) ::
                 PeerAfter(start, epoch, rounds, n) == Peer(at, EMPTY)
  {
    log := OneCommit(at);
    SilenceEndsALife(Peer(0, EMPTY), epoch, limit);
    lives := [Life(Silence(limit), Campaign.Lost, Some(at), true, true), Life(rounds, Campaign.Lost, None, true, true)];
    OnePriorLife(Peer(0, EMPTY), epoch, limit, lives);
    forall n: nat | n <= |rounds| && Fed(log, Peer(at, EMPTY), epoch, rounds, n)
      ensures PeerAfter(Peer(at, EMPTY), epoch, rounds, n) == Peer(at, EMPTY)
    {
      NothingToFeed(log, Peer(at, EMPTY), epoch, rounds, n);
    }
  }

  lemma OnePriorLife(p: Peer, epoch: nat, limit: nat, lives: seq<Life>)
    requires |lives| == 2 && LivesWellFormed(lives) && lives[0].campaign == Campaign.Lost
    requires AllWellFormed(lives[0].rounds) && Downfall(p, epoch, limit, lives[0].rounds).Some?
    ensures AllLost(p, epoch, limit, lives, 1)
    ensures StartOf(p, epoch, limit, lives, 1)
            == Peer(Resume(lives[0], p.cursor), AtEnd(p, epoch, limit, lives[0].rounds).replica)
  {
    assert StartOf(p, epoch, limit, lives, 0) == p;
    assert AllLost(p, epoch, limit, lives, 0);
  }
}
