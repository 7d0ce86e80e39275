/** A follower's whole career: follow until the leader is given up, campaign, and either become leader for the
    next start or follow again. */
module Orbit {
  import opened Basics
  import opened Replay
  import opened Replication
  import opened FollowerLoop

  datatype Role = Standalone | Leader | Follow

  /** What the data directory holds; an epoch that is missing or unreadable counts as 0. */
  datatype Files = Files(epoch: Option<nat>, role: Role)

  function EpochOf(f: Files): nat {
    if f.epoch.Some? then f.epoch.value else 0
  }

  /** One more than the epoch on disk, in 64 bits; the first one is 1. */
  predicate IsNextEpoch(f: Files, epoch: nat) {
    match f.epoch
    case None => epoch == 1
    case Some(e) => epoch == (e + 1) % U64_LIMIT
  }

  datatype Campaign = Won | Lost | Failed

  /** One life as a follower: the rounds it is offered, how the campaign at its end goes, the log position read
      after a lost campaign, and whether the two files can be written. */
  datatype Life = Life(rounds: seq<Exchange>, campaign: Campaign, lastSeq: Option<int>, epochOk: bool, roleOk: bool)

  datatype End = Promoted(epoch: nat) | Stopped(error: string) | StillFollowing

  predicate LivesWellFormed(lives: seq<Life>) {
    forall life | life in lives :: AllWellFormed(life.rounds)
  }

  /** The stores it then leaves behind. */
  function LeftBehind(p: Peer, epoch: nat, limit: nat, rounds: seq<Exchange>): Replica
    requires AllWellFormed(rounds)
  {
    var n := Downfall(p, epoch, limit, rounds);
    PeerAfter(p, epoch, rounds, if n.Some? then n.value else |rounds|).replica
  }

  /** After a lost campaign the next life starts from the position read, or else from where the last one
      started. */
  function Resume(life: Life, localSeq: int): int {
    if life.lastSeq.Some? then life.lastSeq.value else localSeq
  }

  /** How life `k` starts when all before it ended in lost campaigns. */
  function StartOf(p: Peer, epoch: nat, limit: nat, lives: seq<Life>, k: nat): Peer
    requires k <= |lives| && LivesWellFormed(lives)
  {
    if k == 0 then p
    else
      var before := StartOf(p, epoch, limit, lives, k - 1);
      assert lives[k - 1] in lives;
      Peer(Resume(lives[k - 1], before.cursor), LeftBehind(before, epoch, limit, lives[k - 1].rounds))
  }

  /** Life `k` gives its leader up. */
  predicate Falls(p: Peer, epoch: nat, limit: nat, lives: seq<Life>, k: nat)
    requires k < |lives| && LivesWellFormed(lives)
  {
    assert lives[k] in lives;
    Downfall(StartOf(p, epoch, limit, lives, k), epoch, limit, lives[k].rounds).Some?
  }

  /** The next life starts with the stores that were left when the leader was given up: after the first round at which
      the failures since the last exchange had reached the limit. It starts at the position read after the campaign,
      or where this life started if none could be read. */
  lemma NextLifeStarts(p: Peer, epoch: nat, limit: nat, lives: seq<Life>, k: nat) returns (n: nat)
    requires k < |lives| && LivesWellFormed(lives) && Falls(p, epoch, limit, lives, k)
    ensures AllWellFormed(lives[k].rounds) && n <= |lives[k].rounds|
    ensures var start, next := StartOf(p, epoch, limit, lives, k), StartOf(p, epoch, limit, lives, k + 1);
            var history := History(start, epoch, lives[k].rounds);
            && Strikes(history, n) >= Max(1, limit) && (forall m: nat | m < n :: Strikes(history, m) < Max(1, limit))
            && next.replica == PeerAfter(start, epoch, lives[k].rounds, n).replica
            && next.cursor == if lives[k].lastSeq == None then start.cursor else lives[k].lastSeq.value
  {
    assert lives[k] in lives;
    var start := StartOf(p, epoch, limit, lives, k);
    var history := History(start, epoch, lives[k].rounds);
    FirstDownIs(history, |history|, limit);
    n := FirstDown(history, |history|, limit).value;
    forall m: nat | m < n ensures Strikes(history, m) < Max(1, limit) {
      assert !GivesUp(history, m, limit);
    }
  }

  /** The first `n` lives each gave their leader up and lost the campaign. */
  predicate AllLost(p: Peer, epoch: nat, limit: nat, lives: seq<Life>, n: nat)
    requires n <= |lives| && LivesWellFormed(lives)
  {
    n == 0 || (&& AllLost(p, epoch, limit, lives, n - 1)
               && Falls(p, epoch, limit, lives, n - 1) && lives[n - 1].campaign == Campaign.Lost)
  }

  /** How the orbit ends when the first `last` lives were lost and life `last` is not. */
  predicate EndsWith(p: Peer, epoch: nat, limit: nat, lives: seq<Life>, last: nat, end: End)
    requires last <= |lives| && LivesWellFormed(lives)
  {
    if last == |lives| || !Falls(p, epoch, limit, lives, last) then end == StillFollowing
    else
      match lives[last].campaign
      case Failed => end == Stopped("campaign")
      case Won => !end.StillFollowing? && (end.Promoted? <==> lives[last].epochOk && lives[last].roleOk)
      case Lost => false
  }

  /** Whatever has been written since `before`: the role on disk is leader only together with the next epoch. */
  predicate EpochFirst(before: Files, written: seq<Files>) {
    forall f | f in written ::
      f.epoch.Some? && IsNextEpoch(before, f.epoch.value) && (f.role == before.role || f.role == Leader)
  }

  class FollowerOrbit {
    const sink: Sink
    const epoch: nat
    const heartbeatFails: nat
    const heartbeatSecs: nat
    var files: Files
    var stale: bool
    /** Every state the files have been written to. */
    ghost var trail: seq<Files>

    constructor (sink: Sink, epoch: nat, heartbeatFails: nat, heartbeatSecs: nat, files: Files)
      ensures this.sink == sink && this.epoch == epoch && this.files == files && trail == [] && !stale
      ensures this.heartbeatFails == heartbeatFails && this.heartbeatSecs == heartbeatSecs
    {
      this.sink, this.epoch, this.files := sink, epoch, files;
      this.heartbeatFails, this.heartbeatSecs := heartbeatFails, heartbeatSecs;
      stale, trail := false, [];
    }

    /** Epoch first, so that a role of leader is never on disk with the old epoch. */
    method Promote(life: Life) returns (end: End)
      modifies this`files, this`trail
      ensures end.Promoted? <==> life.epochOk && life.roleOk
      ensures end.Promoted? ==> files == Files(Some(end.epoch), Leader) && IsNextEpoch(old(files), end.epoch)
      ensures !end.Promoted? ==>
                && end.Stopped? && files.role == old(files).role
                && (!life.epochOk ==> files == old(files))
                && (life.epochOk ==> files.epoch.Some? && IsNextEpoch(old(files), files.epoch.value))
      ensures old(trail) <= trail && EpochFirst(old(files), trail[|old(trail)|..])
      ensures |trail| == |old(trail)| + if !life.epochOk then 0 else if life.roleOk then 2 else 1
    {
      var newEpoch := (EpochOf(files) + 1) % U64_LIMIT;
      if !life.epochOk {
        return Stopped("write epoch");
      }
      files := files.(epoch := Some(newEpoch));
      trail := trail + [files];
      if !life.roleOk {
        return Stopped("write role");
      }
      files := files.(role := Leader);
      trail := trail + [files];
      return Promoted(newEpoch);
    }

    /** One life; `None` while the leader is not given up. */
    method Live(life: Life, localSeq: int) returns (exit: Option<nat>)
      requires AllWellFormed(life.rounds)
      modifies this`stale, sink
      ensures var p := Peer(localSeq, old(sink.State()));
              && exit == (if Downfall(p, epoch, heartbeatFails, life.rounds).Some?
                          then Some(Max(1, heartbeatFails)) else None)
              && sink.State() == LeftBehind(p, epoch, heartbeatFails, life.rounds)
    {
      var follower := new Follower(sink, epoch, heartbeatFails, heartbeatSecs, localSeq, stale);
      var used: nat;
      exit, used := follower.Run(life.rounds);
      stale := follower.stale;
    }

    /** Lives one after the other until one ends in a promotion or an error; `last` is the number of lives that
        ended in a lost campaign. */
    method Run(lives: seq<Life>, initialSeq: int) returns (end: End, last: nat)
      requires LivesWellFormed(lives)
      modifies this, sink
      ensures var p := Peer(initialSeq, old(sink.State()));
              && last <= |lives| && AllLost(p, epoch, heartbeatFails, lives, last)
              && EndsWith(p, epoch, heartbeatFails, lives, last, end)
      ensures if end.Promoted? then files == Files(Some(end.epoch), Leader) && IsNextEpoch(old(files), end.epoch)
              else files.role == old(files).role
      ensures end.Promoted? ==>
                last < |lives| && lives[last].campaign == Won && lives[last].epochOk && lives[last].roleOk
      ensures end.Stopped? ==>
                last < |lives| && (lives[last].campaign == Failed
                                   || (lives[last].campaign == Won && !(lives[last].epochOk && lives[last].roleOk)))
      ensures old(trail) <= trail && EpochFirst(old(files), trail[|old(trail)|..])
    {
      end, last := StillFollowing, 0;
      var localSeq := initialSeq;
      ghost var p := Peer(initialSeq, sink.State());
      while last < |lives|
        invariant last <= |lives| && files == old(files) && trail == old(trail) && end == StillFollowing
        invariant Peer(localSeq, sink.State()) == StartOf(p, epoch, heartbeatFails, lives, last)
        invariant AllLost(p, epoch, heartbeatFails, lives, last)
      {
        var life := lives[last];
        assert life in lives;
        var exit := Live(life, localSeq);
        assert exit.Some? <==> Falls(p, epoch, heartbeatFails, lives, last);
        if exit.None? {
          return;
        }
        if life.campaign != Campaign.Lost {
          if life.campaign == Won {
            end := Promote(life);
          } else {
            end := Stopped("campaign");
          }
          return;
        }
        localSeq := Resume(life, localSeq);
        last := last + 1;
      }
    }
  }

  /** A promotion is always the end of a life that gave its leader up and won its campaign. */
  lemma PromotedMeansElected(p: Peer, epoch: nat, limit: nat, lives: seq<Life>, last: nat, end: End) returns (n: nat)
    requires last <= |lives| && LivesWellFormed(lives) && EndsWith(p, epoch, limit, lives, last, end) && end.Promoted?
    ensures last < |lives| && lives[last].campaign == Won && AllWellFormed(lives[last].rounds)
    ensures var history := History(StartOf(p, epoch, limit, lives, last), epoch, lives[last].rounds);
            && n <= |history| && Strikes(history, n) == Max(1, limit)
            && forall m: nat | m < n :: !GivesUp(history, m, limit)
  {
    assert lives[last] in lives;
    n := FirstDownStrikes(History(StartOf(p, epoch, limit, lives, last), epoch, lives[last].rounds), limit);
  }
}
