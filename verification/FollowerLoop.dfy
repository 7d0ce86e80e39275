/** The follower's sync loop over whole runs: when it gives its leader up, how long it backs off, and when it
    tells clients that its data may be stale. */
module FollowerLoop {
  import opened Basics
  import opened Items
  import opened Replay
  import opened Replication

  const MAX_BACKOFF: nat := 60
  const GOLDEN: nat := 11400714819323198485

  // ---------------------------------------------------------------- one exchange

  /** What comes of contacting the leader: nothing usable, or an answer with the leader's epoch and entries;
      `calls` are the backend calls that replaying them makes. */
  datatype Exchange = Lost | Answered(leaderEpoch: nat, entries: seq<WopEntry>, calls: seq<Calls>)

  datatype SyncError = Transport | StaleLeader(leaderEpoch: nat, expected: nat)

  predicate WellFormed(x: Exchange) {
    x.Answered? ==> |x.calls| == |x.entries|
  }

  /** An expected epoch of 0 switches the check of the leader's epoch off. */
  function Exchanged(p: Peer, epoch: nat, x: Exchange): (Peer, Result<ReplayOutcome, SyncError>)
    requires WellFormed(x)
  {
    if x.Lost? then (p, Err(Transport))
    else if epoch > 0 && x.leaderEpoch < epoch then (p, Err(StaleLeader(x.leaderEpoch, epoch)))
    else
      var (p', outcome) := Absorb(p, x.entries, x.calls);
      (p', Ok(outcome))
  }

  /** Exactly a leader with a smaller epoch than the follower has known is refused, and then nothing changes; any
      other answer is replayed. */
  lemma StaleLeaderIff(p: Peer, epoch: nat, x: Exchange)
    requires WellFormed(x) && x.Answered?
    ensures var (p', result) := Exchanged(p, epoch, x);
            && (0 < epoch && x.leaderEpoch < epoch <==> result == Err(StaleLeader(x.leaderEpoch, epoch)))
            && (result.Err? ==> p' == p)
            && (result.Ok? <==> epoch == 0 || epoch <= x.leaderEpoch)
            && (result.Ok? ==> (p', result.value) == Absorb(p, x.entries, x.calls))
  {
  }

  // ---------------------------------------------------------------- what a round was

  datatype Kind = Clean | TransientReplay | PermanentReplay | PermanentError | TransportFailure

  function KindOf(result: Result<ReplayOutcome, SyncError>): Kind {
    match result
    case Err(Transport) => TransportFailure
    case Err(StaleLeader(_, _)) => PermanentError
    case Ok(outcome) =>
      if !outcome.failed then Clean else if outcome.permanent then PermanentReplay else TransientReplay
  }

  /** The leader answered, whatever replaying the answer led to. */
  predicate IsExchange(kind: Kind) {
    kind == Clean || kind == TransientReplay || kind == PermanentReplay
  }

  /** How many of the rounds from `i` up to `j` were of one kind. */
  function Count(history: seq<Kind>, kind: Kind, i: nat, j: nat): (n: nat)
    requires i <= j <= |history|
    ensures n <= j - i
    decreases j
  {
    if i == j then 0 else Count(history, kind, i, j - 1) + if history[j - 1] == kind then 1 else 0
  }

  /** The round after the last one, before `n`, that was an exchange; 0 if there was none. */
  function SinceExchange(history: seq<Kind>, n: nat): (i: nat)
    requires n <= |history|
    ensures i <= n && (i > 0 ==> IsExchange(history[i - 1]))
    ensures forall j | i <= j < n :: !IsExchange(history[j])
  {
    if n == 0 then 0 else if IsExchange(history[n - 1]) then n else SinceExchange(history, n - 1)
  }

  function SinceClean(history: seq<Kind>, n: nat): (i: nat)
    requires n <= |history|
    ensures i <= n && (i > 0 ==> history[i - 1] == Clean)
    ensures forall j | i <= j < n :: history[j] != Clean
  {
    if n == 0 then 0 else if history[n - 1] == Clean then n else SinceClean(history, n - 1)
  }

  /** Transport failures since the last exchange. */
  function Strikes(history: seq<Kind>, n: nat): nat
    requires n <= |history|
  {
    Count(history, TransportFailure, SinceExchange(history, n), n)
  }

  /** Transient replay failures since the last clean batch. */
  function Retries(history: seq<Kind>, n: nat): nat
    requires n <= |history|
  {
    Count(history, TransientReplay, SinceClean(history, n), n)
  }

  /** The flag after `n` rounds: the last round that was no transient replay failure decides. */
  function Stale(history: seq<Kind>, n: nat, before: bool): bool
    requires n <= |history|
  {
    if n == 0 then before
    else if history[n - 1] == TransientReplay then Stale(history, n - 1, before)
    else history[n - 1] != Clean
  }

  lemma {:induction false} StaleIff(history: seq<Kind>, n: nat, before: bool, i: nat)
    requires i < n <= |history|
    requires history[i] != TransientReplay && forall j | i < j < n :: history[j] == TransientReplay
    ensures Stale(history, n, before) <==> history[i] != Clean
  {
    if i < n - 1 {
      StaleIff(history, n - 1, before, i);
    }
  }

  // ---------------------------------------------------------------- back-off

  /** A multiplicative hash in 64 bits. */
  function Hash(seed: int): nat {
    (((if seed < 0 then -seed else seed) + 1) % U64_LIMIT) * GOLDEN % U64_LIMIT
  }

  /** A deterministic offset of up to a quarter, spread by the hash of the cursor. */
  function BackoffJitter(base: nat, seed: int): (jitter: nat)
    ensures jitter <= base / 4
  {
    if base <= 1 then 0
    else
      var span := base / 4;
      if span == 0 then 0 else Hash(seed) % (span + 1)
  }

  lemma Residue(q: nat, r: nat)
    ensures (16 * q + r) % 16 == r % 16
  {
  }

  lemma HashResidue(seed: nat)
    requires seed < U64_LIMIT - 1
    ensures Hash(seed) % 16 == (5 * (seed + 1)) % 16
  {
    var h := (seed + 1) * GOLDEN;
    assert h == 16 * (712544676207699905 * (seed + 1)) + 5 * (seed + 1);
    Residue(712544676207699905 * (seed + 1), 5 * (seed + 1));
    assert h == 16 * (h / U64_LIMIT * 0x1000_0000_0000_0000) + h % U64_LIMIT;
    Residue(h / U64_LIMIT * 0x1000_0000_0000_0000, h % U64_LIMIT);
  }

  lemma FiveTimes(x: nat)
    ensures (13 * ((5 * (x + 1)) % 16) + 15) % 16 == x % 16
  {
    assert 5 * (x + 1) == 16 * (5 * (x + 1) / 16) + (5 * (x + 1)) % 16;
    Residue(13 * (5 * (x + 1) / 16), 13 * ((5 * (x + 1)) % 16) + 15);
    Residue(4 * x + 5, x);
  }

  lemma CeilingOffset(seed: nat, offset: nat)
    requires seed < U64_LIMIT - 1 && offset == BackoffJitter(60, seed)
    ensures offset == (5 * (seed + 1)) % 16
  {
    HashResidue(seed);
  }

  lemma SameOffset(a: nat, b: nat, i: nat, j: nat)
    requires i == (5 * (a + 1)) % 16 && j == (5 * (b + 1)) % 16
    ensures i == j <==> a % 16 == b % 16
  {
    FiveTimes(a);
    FiveTimes(b);
    if a % 16 == b % 16 {
      Residue(5 * (a / 16), 5 * (a % 16 + 1));
      Residue(5 * (b / 16), 5 * (b % 16 + 1));
    }
  }

  /** At the ceiling of the back-off, followers pause alike exactly when their cursors agree modulo 16: all sixteen
      offsets occur, in any sixteen consecutive cursors. */
  lemma CeilingSpreads(a: nat, b: nat)
    requires a < U64_LIMIT - 1 && b < U64_LIMIT - 1
    ensures BackoffJitter(60, a) == BackoffJitter(60, b) <==> a % 16 == b % 16
  {
    CeilingOffset(a, BackoffJitter(60, a));
    CeilingOffset(b, BackoffJitter(60, b));
    SameOffset(a, b, BackoffJitter(60, a), BackoffJitter(60, b));
  }

  /** Doubling with a ceiling, started at 1 and done `k` times, is the capped power of two. */
  lemma {:induction false} DoublingIsCappedPower(k: nat)
    ensures Min(Min(Pow2(k), MAX_BACKOFF) * 2, MAX_BACKOFF) == Min(Pow2(k + 1), MAX_BACKOFF)
  {
  }

  // ---------------------------------------------------------------- the run of a peer

  predicate AllWellFormed(rounds: seq<Exchange>) {
    forall x | x in rounds :: WellFormed(x)
  }

  /** The peer after the first `n` rounds. */
  function PeerAfter(p: Peer, epoch: nat, rounds: seq<Exchange>, n: nat): Peer
    requires n <= |rounds| && AllWellFormed(rounds)
  {
    if n == 0 then p else Exchanged(PeerAfter(p, epoch, rounds, n - 1), epoch, rounds[n - 1]).0
  }

  /** Nothing came of the round, or the answer of a leader with a smaller epoch. */
  predicate FromNoLeader(x: Exchange, epoch: nat) {
    x.Lost? || (0 < epoch && x.leaderEpoch < epoch)
  }

  /** Rounds that differ at most in which of them came to nothing and what leaders with a smaller epoch answered. */
  ghost predicate SameBut(a: seq<Exchange>, b: seq<Exchange>, epoch: nat) {
    && |a| == |b|
    && forall i | 0 <= i < |a| :: a[i] == b[i] || (FromNoLeader(a[i], epoch) && FromNoLeader(b[i], epoch))
  }

  /** Over a whole run, whatever leaders with a smaller epoch send has no influence on the stores and the cursor: they
      end as if these answers had been others, or had been lost. */
  lemma {:induction false} StaleLeadersHaveNoInfluence(p: Peer, epoch: nat, a: seq<Exchange>, b: seq<Exchange>, n: nat)
    requires AllWellFormed(a) && AllWellFormed(b) && SameBut(a, b, epoch) && n <= |a|
    ensures PeerAfter(p, epoch, a, n) == PeerAfter(p, epoch, b, n)
  {
    if n > 0 {
      StaleLeadersHaveNoInfluence(p, epoch, a, b, n - 1);
      assert a[n - 1] in a && b[n - 1] in b;
    }
  }

  /** What each of the rounds was. */
  function History(p: Peer, epoch: nat, rounds: seq<Exchange>): (h: seq<Kind>)
    requires AllWellFormed(rounds)
    ensures |h| == |rounds|
  {
    seq(|rounds|, i requires 0 <= i < |rounds| =>
      KindOf(Exchanged(PeerAfter(p, epoch, rounds, i), epoch, rounds[i]).1))
  }

  // ---------------------------------------------------------------- the loop's own counters

  datatype Loop = Loop(fails: nat, backoff: nat, stale: bool)

  function Turn(l: Loop, kind: Kind): Loop {
    match kind
    case Clean => Loop(0, 1, false)
    case TransientReplay => Loop(0, Min(l.backoff * 2, MAX_BACKOFF), l.stale)
    case PermanentReplay => Loop(0, l.backoff, true)
    case PermanentError => l.(stale := true)
    case TransportFailure => l.(fails := l.fails + 1, stale := true)
  }

  function PauseAfter(l: Loop, kind: Kind, cursor: int, heartbeat: nat): nat {
    if kind == TransientReplay then l.backoff + BackoffJitter(l.backoff, cursor) else heartbeat
  }

  function LoopAfter(history: seq<Kind>, n: nat, stale: bool): Loop
    requires n <= |history|
  {
    if n == 0 then Loop(0, 1, stale) else Turn(LoopAfter(history, n - 1, stale), history[n - 1])
  }

  /** The counters after any number of rounds: strikes since the last exchange, the capped power of two of the
      retries since the last clean batch, and the flag that the last telling round set. */
  lemma {:induction false} CountersMean(history: seq<Kind>, n: nat, stale: bool)
    requires n <= |history|
    ensures LoopAfter(history, n, stale)
            == Loop(Strikes(history, n), Min(Pow2(Retries(history, n)), MAX_BACKOFF), Stale(history, n, stale))
  {
    if n > 0 {
      CountersMean(history, n - 1, stale);
      DoublingIsCappedPower(Retries(history, n - 1));
    }
  }

  /** The pause after a round: after a transient replay failure, the `k`-th since the last clean batch, two to the
      power of `k` seconds but no more than 60, and up to a quarter more; after any other round the heartbeat
      interval. */
  lemma PauseIs(history: seq<Kind>, n: nat, stale: bool, cursor: int, heartbeat: nat)
    requires 0 < n <= |history|
    ensures var pause := PauseAfter(LoopAfter(history, n, stale), history[n - 1], cursor, heartbeat);
            var base := Min(Pow2(Count(history, TransientReplay, SinceClean(history, n), n)), 60);
            if history[n - 1] == TransientReplay then base <= pause <= base + base / 4 else pause == heartbeat
  {
    CountersMean(history, n, stale);
  }

  /** So a back-off pause takes between 2 and 75 seconds. */
  lemma BackoffBounded(history: seq<Kind>, n: nat, stale: bool, cursor: int, heartbeat: nat)
    requires 0 < n <= |history| && history[n - 1] == TransientReplay
    ensures 2 <= PauseAfter(LoopAfter(history, n, stale), TransientReplay, cursor, heartbeat) <= 75
  {
    PauseIs(history, n, stale, cursor, heartbeat);
    assert SinceClean(history, n) <= n - 1 && Retries(history, n) >= 1;
  }

  /** The leader is given up after round `n`. */
  predicate GivesUp(history: seq<Kind>, n: nat, limit: nat)
    requires n <= |history|
  {
    Strikes(history, n) >= Max(1, limit)
  }

  lemma TurnDecides(history: seq<Kind>, n: nat, limit: nat, stale: bool)
    requires n < |history| && !GivesUp(history, n, limit)
    ensures var l := LoopAfter(history, n + 1, stale);
            && (GivesUp(history, n + 1, limit) <==> history[n] == TransportFailure && l.fails >= limit)
            && (GivesUp(history, n + 1, limit) ==> l.fails == Max(1, limit))
            && l.stale == Stale(history, n + 1, stale)
  {
    CountersMean(history, n, stale);
    CountersMean(history, n + 1, stale);
  }

  /** The first of the rounds up to `n` after which the leader is given up. */
  function FirstDown(history: seq<Kind>, n: nat, limit: nat): Option<nat>
    requires n <= |history|
  {
    var before := if n == 0 then None else FirstDown(history, n - 1, limit);
    if before.Some? then before else if GivesUp(history, n, limit) then Some(n) else None
  }

  lemma {:induction false} FirstDownIs(history: seq<Kind>, n: nat, limit: nat)
    requires n <= |history|
    ensures var d := FirstDown(history, n, limit);
            if d.Some? then && d.value <= n && GivesUp(history, d.value, limit)
                            && forall m: nat | m < d.value :: !GivesUp(history, m, limit)
            else forall m: nat | m <= n :: !GivesUp(history, m, limit)
  {
    if n > 0 {
      FirstDownIs(history, n - 1, limit);
    }
  }

  /** Giving up takes exactly the configured number of failures since the last exchange. */
  lemma FirstDownStrikes(history: seq<Kind>, limit: nat) returns (n: nat)
    requires FirstDown(history, |history|, limit).Some?
    ensures n <= |history| && Strikes(history, n) == Max(1, limit)
    ensures forall m: nat | m < n :: !GivesUp(history, m, limit)
  {
    FirstDownIs(history, |history|, limit);
    n := FirstDown(history, |history|, limit).value;
    TurnDecides(history, n - 1, limit, false);
    CountersMean(history, n, false);
  }

  lemma {:induction false} FirstDownStays(history: seq<Kind>, n: nat, m: nat, limit: nat)
    requires n <= m <= |history| && FirstDown(history, n, limit).Some?
    ensures FirstDown(history, m, limit) == FirstDown(history, n, limit)
  {
    if n < m {
      FirstDownStays(history, n, m - 1, limit);
    }
  }

  /** The round after which a follower that starts as `p` gives its leader up, if it does. */
  function Downfall(p: Peer, epoch: nat, limit: nat, rounds: seq<Exchange>): (n: Option<nat>)
    requires AllWellFormed(rounds)
    ensures n.Some? ==> n.value <= |rounds|
  {
    FirstDownIs(History(p, epoch, rounds), |rounds|, limit);
    FirstDown(History(p, epoch, rounds), |rounds|, limit)
  }

  /** The pauses of the first `n` rounds. */
  function Pauses(p: Peer, epoch: nat, rounds: seq<Exchange>, heartbeat: nat, stale: bool, n: nat): (s: seq<nat>)
    requires n <= |rounds| && AllWellFormed(rounds)
    ensures |s| == n
  {
    if n == 0 then []
    else
      var history := History(p, epoch, rounds);
      Pauses(p, epoch, rounds, heartbeat, stale, n - 1)
      + [PauseAfter(LoopAfter(history, n, stale), history[n - 1], PeerAfter(p, epoch, rounds, n).cursor, heartbeat)]
  }

  /** What a run starts from. */
  datatype Setup = Setup(peer: Peer, epoch: nat, rounds: seq<Exchange>, limit: nat, heartbeat: nat, stale: bool)

  /** The run has come to round `n` without giving the leader up. */
  ghost predicate Underway(s: Setup, n: nat, peer: Peer, l: Loop, pauses: seq<nat>) {
    && n <= |s.rounds| && AllWellFormed(s.rounds)
    && peer == PeerAfter(s.peer, s.epoch, s.rounds, n)
    && l == LoopAfter(History(s.peer, s.epoch, s.rounds), n, s.stale)
    && pauses == Pauses(s.peer, s.epoch, s.rounds, s.heartbeat, s.stale, n)
    && FirstDown(History(s.peer, s.epoch, s.rounds), n, s.limit) == None
  }

  /** Round `n` was the first after which the leader was given up. */
  ghost predicate Ended(s: Setup, n: nat, peer: Peer, stale: bool, pauses: seq<nat>, exit: nat) {
    && 0 < n <= |s.rounds| && AllWellFormed(s.rounds)
    && peer == PeerAfter(s.peer, s.epoch, s.rounds, n)
    && stale == Stale(History(s.peer, s.epoch, s.rounds), n, s.stale)
    && pauses == Pauses(s.peer, s.epoch, s.rounds, s.heartbeat, s.stale, n - 1)
    && FirstDown(History(s.peer, s.epoch, s.rounds), n, s.limit) == Some(n) && exit == Max(1, s.limit)
  }

  lemma RoundCounts(s: Setup, n: nat, peer: Peer, l: Loop, pauses: seq<nat>)
    requires Underway(s, n, peer, l, pauses) && n < |s.rounds|
    ensures var history := History(s.peer, s.epoch, s.rounds);
            && history[n] == KindOf(Exchanged(peer, s.epoch, s.rounds[n]).1)
            && LoopAfter(history, n + 1, s.stale) == Turn(l, history[n])
            && PeerAfter(s.peer, s.epoch, s.rounds, n + 1) == Exchanged(peer, s.epoch, s.rounds[n]).0
            && !GivesUp(history, n, s.limit)
  {
    FirstDownIs(History(s.peer, s.epoch, s.rounds), n, s.limit);
  }

  lemma RoundEnds(s: Setup, n: nat, peer: Peer, l: Loop, pauses: seq<nat>)
    requires Underway(s, n, peer, l, pauses) && n < |s.rounds|
    ensures var (peer', result) := Exchanged(peer, s.epoch, s.rounds[n]);
            var l' := Turn(l, KindOf(result));
            KindOf(result) == TransportFailure && l'.fails >= s.limit
            ==> Ended(s, n + 1, peer', l'.stale, pauses, l'.fails)
  {
    RoundCounts(s, n, peer, l, pauses);
    TurnDecides(History(s.peer, s.epoch, s.rounds), n, s.limit, s.stale);
  }

  lemma RoundGoesOn(s: Setup, n: nat, peer: Peer, l: Loop, pauses: seq<nat>)
    requires Underway(s, n, peer, l, pauses) && n < |s.rounds|
    ensures var (peer', result) := Exchanged(peer, s.epoch, s.rounds[n]);
            var l' := Turn(l, KindOf(result));
            !(KindOf(result) == TransportFailure && l'.fails >= s.limit)
            ==> Underway(s, n + 1, peer', l', pauses + [PauseAfter(l', KindOf(result), peer'.cursor, s.heartbeat)])
  {
    RoundCounts(s, n, peer, l, pauses);
    TurnDecides(History(s.peer, s.epoch, s.rounds), n, s.limit, s.stale);
  }

  lemma RunDecided(s: Setup, n: nat)
    requires n <= |s.rounds| && AllWellFormed(s.rounds)
    ensures var history := History(s.peer, s.epoch, s.rounds);
            FirstDown(history, n, s.limit).Some? || n == |s.rounds|
            ==> Downfall(s.peer, s.epoch, s.limit, s.rounds) == FirstDown(history, n, s.limit)
  {
    var history := History(s.peer, s.epoch, s.rounds);
    if FirstDown(history, n, s.limit).Some? {
      FirstDownStays(history, n, |history|, s.limit);
    }
  }

  class Follower {
    const sink: Sink
    const epoch: nat
    const heartbeatFails: nat
    const heartbeatSecs: nat
    var cursor: int
    var stale: bool
    var slept: seq<nat>

    constructor (sink: Sink, epoch: nat, heartbeatFails: nat, heartbeatSecs: nat, cursor: int, stale: bool)
      ensures this.sink == sink && this.epoch == epoch
      ensures this.heartbeatFails == heartbeatFails && this.heartbeatSecs == heartbeatSecs
      ensures this.cursor == cursor && this.stale == stale && slept == []
    {
      this.sink, this.epoch := sink, epoch;
      this.heartbeatFails, this.heartbeatSecs := heartbeatFails, heartbeatSecs;
      this.cursor, this.stale, slept := cursor, stale, [];
    }

    ghost function State(): Peer
      reads this, sink
    {
      Peer(cursor, sink.State())
    }

    /** One exchange; the cursor moves to the last entry that was finished, not to the leader's last. */
    method SyncOnce(x: Exchange) returns (result: Result<ReplayOutcome, SyncError>)
      requires WellFormed(x)
      modifies this`cursor, sink
      ensures result == Err(Transport) <==> x.Lost?
      ensures x.Answered? ==> (result == Err(StaleLeader(x.leaderEpoch, epoch)) <==> 0 < epoch && x.leaderEpoch < epoch)
      ensures result.Err? ==> State() == old(State())
      ensures result.Ok? ==> (State(), result.value) == Absorb(old(State()), x.entries, x.calls)
      ensures (State(), result) == Exchanged(old(State()), epoch, x)
    {
      if x.Lost? {
        return Err(Transport);
      }
      if epoch > 0 && x.leaderEpoch < epoch {
        return Err(StaleLeader(x.leaderEpoch, epoch));
      }
      var outcome := sink.ReplayWops(x.entries, x.calls);
      if outcome.lastAppliedSeq > cursor {
        cursor := outcome.lastAppliedSeq;
      }
      return Ok(outcome);
    }

    /** One turn of the loop: sync, count, and pause unless the leader is given up. */
    method Round(x: Exchange, fails: nat, backoff: nat) returns (fails': nat, backoff': nat, down: bool)
      requires WellFormed(x)
      modifies this, sink
      ensures var (peer, result) := Exchanged(old(State()), epoch, x);
              && (result == Err(Transport) ==>
                    fails' == fails + 1 && backoff' == backoff && stale && down == (fails' >= heartbeatFails))
              && (result != Err(Transport) ==> !down)
              && (result.Err? && result.error.StaleLeader? ==> fails' == fails && backoff' == backoff && stale)
              && (result.Ok? ==> fails' == 0)
              && (result.Ok? && !result.value.failed ==> backoff' == 1 && !stale)
              && (result.Ok? && result.value.failed && result.value.permanent ==> backoff' == backoff && stale)
              && (result.Ok? && result.value.failed && !result.value.permanent ==>
                    backoff' == Min(2 * backoff, 60) && stale == old(stale))
      ensures var (peer, result) := Exchanged(old(State()), epoch, x);
              var kind := KindOf(result);
              && State() == peer
              && Loop(fails', backoff', stale) == Turn(Loop(fails, backoff, old(stale)), kind)
              && down == (kind == TransportFailure && fails' >= heartbeatFails)
              && slept == old(slept) + if down then []
                                       else [PauseAfter(Loop(fails', backoff', stale), kind, cursor, heartbeatSecs)]
    {
      fails', backoff', down := fails, backoff, false;
      var result := SyncOnce(x);
      match result {
        case Ok(outcome) =>
          fails' := 0;
          if outcome.failed {
            if outcome.permanent {
              stale := true;
              slept := slept + [heartbeatSecs];
              return;
            }
            backoff' := Min(backoff * 2, MAX_BACKOFF);
            slept := slept + [backoff' + BackoffJitter(backoff', cursor)];
            return;
          }
          stale := false;
          backoff' := 1;
        case Err(StaleLeader(_, _)) =>
          stale := true;
        case Err(Transport) =>
          fails' := fails + 1;
          stale := true;
          if fails' >= heartbeatFails {
            down := true;
            return;
          }
      }
      slept := slept + [heartbeatSecs];
    }

    /** Round `n` of a run. */
    method RoundAt(rounds: seq<Exchange>, n: nat, fails: nat, backoff: nat, ghost setup: Setup,
                   ghost pauses: seq<nat>, ghost sleptBefore: seq<nat>)
      returns (exit: Option<nat>, fails': nat, backoff': nat, ghost pauses': seq<nat>)
      requires n < |rounds| && Underway(setup, n, State(), Loop(fails, backoff, stale), pauses)
      requires setup.rounds == rounds && setup.epoch == epoch
      requires setup.limit == heartbeatFails && setup.heartbeat == heartbeatSecs
      requires slept == sleptBefore + pauses
      modifies this, sink
      ensures slept == sleptBefore + pauses'
      ensures if exit.None? then Underway(setup, n + 1, State(), Loop(fails', backoff', stale), pauses')
              else Ended(setup, n + 1, State(), stale, pauses', exit.value)
    {
      RoundEnds(setup, n, State(), Loop(fails, backoff, stale), pauses);
      RoundGoesOn(setup, n, State(), Loop(fails, backoff, stale), pauses);
      ghost var kind := KindOf(Exchanged(State(), epoch, rounds[n]).1);
      assert rounds[n] in rounds;
      var down: bool;
      fails', backoff', down := Round(rounds[n], fails, backoff);
      exit, pauses' := None, pauses;
      if down {
        exit := Some(fails');
      } else {
        pauses' := pauses + [PauseAfter(Loop(fails', backoff', stale), kind, cursor, heartbeatSecs)];
        assert slept == (sleptBefore + pauses)
                        + [PauseAfter(Loop(fails', backoff', stale), kind, cursor, heartbeatSecs)];
      }
    }

    /** Syncs until the leader is given up or the rounds offered are used up; `exit` is the number of failures
        that ended the run. The run ends with the first round after which enough transport failures have
        passed since the last exchange. */
    method Run(rounds: seq<Exchange>) returns (exit: Option<nat>, used: nat)
      requires AllWellFormed(rounds)
      modifies this, sink
      ensures used <= |rounds| && State() == PeerAfter(old(State()), epoch, rounds, used)
      ensures var history := History(old(State()), epoch, rounds);
              && Downfall(old(State()), epoch, heartbeatFails, rounds) == (if exit.Some? then Some(used) else None)
              && (if exit.Some? then used > 0 && exit.value == Max(1, heartbeatFails) else used == |rounds|)
              && stale == Stale(history, used, old(stale))
      ensures slept == old(slept) + Pauses(old(State()), epoch, rounds, heartbeatSecs, old(stale),
                                           if exit.Some? then used - 1 else used)
    {
      exit, used := None, 0;
      var fails, backoff := 0, 1;
      ghost var setup := Setup(State(), epoch, rounds, heartbeatFails, heartbeatSecs, stale);
      ghost var pauses: seq<nat> := [];
      ghost var sleptBefore := slept;
      while used < |rounds| && exit.None?
        invariant used <= |rounds| && slept == sleptBefore + pauses
        invariant if exit.None? then Underway(setup, used, State(), Loop(fails, backoff, stale), pauses)
                  else Ended(setup, used, State(), stale, pauses, exit.value)
        decreases |rounds| - used
      {
        exit, fails, backoff, pauses := RoundAt(rounds, used, fails, backoff, setup, pauses, sleptBefore);
        used := used + 1;
      }
      RunDecided(setup, used);
      if exit.None? {
        CountersMean(History(setup.peer, epoch, rounds), used, setup.stale);
      }
    }
  }
}
