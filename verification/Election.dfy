/**
 One node of the leader election: the state kept behind the election lock, the vote handler,
 and the three locked or unlocked phases of a campaign.
 */
module Election {
  import opened Basics

  datatype ElectionState = Follower | Candidate | Leader

  /** What the election lock protects, apart from the instant of the last heartbeat. */
  datatype Runtime = Runtime(state: ElectionState, currentTerm: nat, votedFor: Option<nat>, lastSeq: int)

  datatype VoteRequest = VoteRequest(term: nat, candidateId: nat, candidateLastSeq: int, token: Bytes)

  datatype VoteResponse = VoteResponse(term: nat, granted: bool, voterLastSeq: int)

  const FRESH := Runtime(Follower, 0, None, 0)

  /** A strict majority of the configured nodes. */
  function Quorum(nodes: nat): nat {
    nodes / 2 + 1
  }

  /** The token a node presents: the configured one, or the empty string. */
  function Presented(token: Option<Bytes>): Bytes {
    match token
    case Some(t) => t
    case None => []
  }

  /** The state after a node has seen the term of a request that passed the token check. */
  function SeeTerm(st: Runtime, term: nat): Runtime {
    if term > st.currentTerm then st.(currentTerm := term, votedFor := None, state := Follower) else st
  }

  /** The vote handler as one locked step: the node's next state and its answer. */
  function AnswerVote(st: Runtime, token: Option<Bytes>, req: VoteRequest, localSeq: int)
    : (Runtime, VoteResponse)
  {
    if token.Some? && token.value != req.token then
      (st, VoteResponse(st.currentTerm, false, st.lastSeq))
    else
      var seen := SeeTerm(st, req.term);
      var denied := VoteResponse(seen.currentTerm, false, seen.lastSeq);
      if req.term < seen.currentTerm then
        (seen, denied)
      else if seen.votedFor.Some? && seen.votedFor.value != req.candidateId then
        (seen, denied)
      else if req.candidateLastSeq < seen.lastSeq then
        (seen, denied)
      else
        var voted := seen.(votedFor := Some(req.candidateId), lastSeq := Max(seen.lastSeq, localSeq));
        (voted, VoteResponse(voted.currentTerm, true, voted.lastSeq))
  }

  /** The four published criteria for granting a vote. */
  predicate MayGrant(st: Runtime, token: Option<Bytes>, req: VoteRequest) {
    && (token.Some? ==> req.token == token.value)
    && req.term >= st.currentTerm
    && req.candidateLastSeq >= st.lastSeq
    && (req.term == st.currentTerm && st.votedFor.Some? ==> st.votedFor.value == req.candidateId)
  }

  /** A request with a wrong token changes nothing and is denied. With the right token, or where none is configured,
      the token has no further say: the node does what it does without one. */
  lemma TokenGates(st: Runtime, token: Option<Bytes>, req: VoteRequest, localSeq: int, other: Bytes)
    ensures AnswerVote(st, token, req, localSeq)
            == if token.Some? && req.token != token.value then (st, VoteResponse(st.currentTerm, false, st.lastSeq))
               else AnswerVote(st, None, req.(token := other), localSeq)
  {
  }

  /** The handler grants exactly under the four criteria, and a grant is for the request's own term. */
  lemma GrantIffCriteria(st: Runtime, token: Option<Bytes>, req: VoteRequest, localSeq: int)
    ensures var (st', resp) := AnswerVote(st, token, req, localSeq);
            && (resp.granted <==> MayGrant(st, token, req))
            && (resp.granted ==> resp.term == req.term == st'.currentTerm && st'.votedFor == Some(req.candidateId))
            && resp.term == st'.currentTerm && resp.voterLastSeq == st'.lastSeq
  {
  }

  /** Whatever the request, a node's term and recorded log position never go back, and a vote of the
      current term is never changed: only a higher term clears it. */
  lemma VoteStepMonotone(st: Runtime, token: Option<Bytes>, req: VoteRequest, localSeq: int)
    ensures var st' := AnswerVote(st, token, req, localSeq).0;
            && st'.currentTerm >= st.currentTerm
            && st'.lastSeq >= st.lastSeq
            && (st'.currentTerm == st.currentTerm && st.votedFor.Some? ==> st'.votedFor == st.votedFor)
            && (st'.currentTerm == st.currentTerm ==> st'.state == st.state)
            && (st'.currentTerm > st.currentTerm ==> st'.state == Follower)
  {
  }

  /** First phase of a campaign, under the lock: bump the term and vote for oneself. */
  function StartCampaign(st: Runtime, self: nat, myLastSeq: int): Runtime {
    Runtime(Candidate, st.currentTerm + 1, Some(self), Max(st.lastSeq, myLastSeq))
  }

  /** Last phase of a campaign, under the lock again: the term is not looked at. */
  function FinishCampaign(st: Runtime, granted: nat, quorum: nat): Runtime {
    st.(state := if granted >= quorum then Leader else Follower)
  }

  /** How many of the first replies carry a grant; `None` is a peer that could not be asked. */
  function Grants(replies: seq<Option<VoteResponse>>): nat {
    if replies == [] then 0
    else
      var last := replies[|replies| - 1];
      Grants(replies[..|replies| - 1]) + if last.Some? && last.value.granted then 1 else 0
  }

  /** The peers that answered and granted. */
  function Granting(replies: seq<Option<VoteResponse>>): set<nat> {
    set i: nat | i < |replies| && replies[i].Some? && replies[i].value.granted
  }

  lemma {:induction false} GrantsCountPeers(replies: seq<Option<VoteResponse>>)
    ensures Grants(replies) == |Granting(replies)| <= |replies|
  {
    if replies != [] {
      var n := |replies| - 1;
      GrantsCountPeers(replies[..n]);
      if replies[n].Some? && replies[n].value.granted {
        assert Granting(replies) == Granting(replies[..n]) + {n};
      } else {
        assert Granting(replies) == Granting(replies[..n]);
      }
    }
  }

  /** Byte-wise comparison that looks at every byte: true exactly for equal strings. */
  method ConstantTimeEq(a: Bytes, b: Bytes) returns (equal: bool)
    ensures equal <==> a == b
  {
    if |a| != |b| {
      return false;
    }
    var diff: bv8 := 0;
    for i := 0 to |a|
      invariant diff == 0 <==> a[..i] == b[..i]
    {
      var x := a[i] ^ b[i];
      assert x == 0 <==> a[i] == b[i];
      assert (diff | x) == 0 <==> diff == 0 && x == 0;
      assert a[..i + 1] == a[..i] + [a[i]] && b[..i + 1] == b[..i] + [b[i]];
      diff := diff | x;
    }
    assert a[..|a|] == a && b[..|b|] == b;
    return diff == 0;
  }

  /** A node's election object: its configuration and the fields behind the lock. */
  class Node {
    const nodes: nat
    const selfId: nat
    const token: Option<Bytes>
    const heartbeatSecs: nat
    const heartbeatFails: nat
    var state: ElectionState
    var currentTerm: nat
    var votedFor: Option<nat>
    var lastSeq: int
    var lastHeartbeat: nat

    ghost function Locked(): Runtime
      reads this
    {
      Runtime(state, currentTerm, votedFor, lastSeq)
    }

    constructor (nodes: nat, selfId: nat, token: Option<Bytes>, heartbeatSecs: nat, heartbeatFails: nat, now: nat)
      ensures this.nodes == nodes && this.selfId == selfId && this.token == token
      ensures this.heartbeatSecs == heartbeatSecs && this.heartbeatFails == heartbeatFails
      ensures Locked() == FRESH && lastHeartbeat == now
    {
      this.nodes, this.selfId, this.token := nodes, selfId, token;
      this.heartbeatSecs, this.heartbeatFails := heartbeatSecs, heartbeatFails;
      state, currentTerm, votedFor, lastSeq, lastHeartbeat := Follower, 0, None, 0, now;
    }

    /** Answers one vote request in one locked section; a grant gives the candidate a fresh lease. */
    method HandleVote(req: VoteRequest, localSeq: int, now: nat) returns (resp: VoteResponse)
      modifies this
      ensures token.Some? && req.token != token.value ==> !resp.granted && Locked() == old(Locked())
      ensures token.None? || req.token == token.value ==>
                && (resp.granted <==> && req.term >= old(currentTerm) && req.candidateLastSeq >= old(lastSeq)
                                      && (req.term == old(currentTerm) && old(votedFor).Some? ==>
                                            old(votedFor).value == req.candidateId))
                && currentTerm == Max(old(currentTerm), req.term)
                && state == (if req.term > old(currentTerm) then Follower else old(state))
                && votedFor == (if resp.granted then Some(req.candidateId)
                                else if req.term > old(currentTerm) then None else old(votedFor))
                && lastSeq == if resp.granted then Max(old(lastSeq), localSeq) else old(lastSeq)
      ensures resp.term == currentTerm && resp.voterLastSeq == lastSeq
      ensures lastHeartbeat == if resp.granted then now else old(lastHeartbeat)
      ensures (Locked(), resp) == AnswerVote(old(Locked()), token, req, localSeq)
    {
      if token.Some? {
        var same := ConstantTimeEq(token.value, req.token);
        if !same {
          return VoteResponse(currentTerm, false, lastSeq);
        }
      }
      if req.term > currentTerm {
        currentTerm := req.term;
        votedFor := None;
        state := Follower;
      }
      if req.term < currentTerm {
        return VoteResponse(currentTerm, false, lastSeq);
      }
      if votedFor.Some? && votedFor.value != req.candidateId {
        return VoteResponse(currentTerm, false, lastSeq);
      }
      if req.candidateLastSeq < lastSeq {
        return VoteResponse(currentTerm, false, lastSeq);
      }
      votedFor := Some(req.candidateId);
      lastHeartbeat := now;
      lastSeq := Max(lastSeq, localSeq);
      resp := VoteResponse(currentTerm, true, lastSeq);
    }

    /** Opens a campaign; the request that goes to every peer carries the new term. */
    method BeginCampaign(myLastSeq: int) returns (req: VoteRequest)
      modifies this
      ensures lastHeartbeat == old(lastHeartbeat)
      ensures state == Candidate && currentTerm == old(currentTerm) + 1 && votedFor == Some(selfId)
      ensures lastSeq == Max(old(lastSeq), myLastSeq)
      ensures req.term == currentTerm && req.candidateId == selfId && req.candidateLastSeq == myLastSeq
      ensures req.token == if token.Some? then token.value else []
      ensures Locked() == StartCampaign(old(Locked()), selfId, myLastSeq)
    {
      state := Candidate;
      currentTerm := currentTerm + 1;
      votedFor := Some(selfId);
      lastSeq := Max(lastSeq, myLastSeq);
      req := VoteRequest(currentTerm, selfId, myLastSeq, Presented(token));
    }

    /** Counts the peers' answers, one after the other and without the lock, on top of the own vote. */
    method PollPeers(replies: seq<Option<VoteResponse>>) returns (granted: nat)
      ensures granted == 1 + Grants(replies)
      ensures granted == 1 + |set i: nat | i < |replies| && replies[i].Some? && replies[i].value.granted|
    {
      granted := 1;
      for i := 0 to |replies|
        invariant granted == 1 + Grants(replies[..i])
      {
        assert replies[..i + 1][..i] == replies[..i];
        if replies[i].Some? && replies[i].value.granted {
          granted := granted + 1;
        }
      }
      assert replies[..|replies|] == replies;
      GrantsCountPeers(replies);
    }

    /** Closes a campaign; true exactly when a majority granted, and then the lease is fresh. */
    method Decide(granted: nat, now: nat) returns (won: bool)
      modifies this`state, this`lastHeartbeat
      ensures won <==> 2 * granted > nodes
      ensures state == if won then Leader else Follower
      ensures Locked() == FinishCampaign(old(Locked()), granted, Quorum(nodes))
      ensures lastHeartbeat == if won then now else old(lastHeartbeat)
    {
      won := granted >= Quorum(nodes);
      if won {
        state := Leader;
        lastHeartbeat := now;
      } else {
        state := Follower;
      }
    }

    /** A heartbeat renews the lease and may only move the recorded log position forward. */
    method RefreshLease(leaderSeq: int, now: nat)
      modifies this`lastSeq, this`lastHeartbeat
      ensures lastSeq == Max(old(lastSeq), leaderSeq) && lastHeartbeat == now
    {
      lastHeartbeat := now;
      lastSeq := Max(lastSeq, leaderSeq);
    }

    /** A leader never gives itself up; anyone else does when the last heartbeat is older than the lease. */
    method LeaseExpired(now: nat) returns (expired: bool)
      ensures expired <==> state != Leader && now - lastHeartbeat > heartbeatSecs * heartbeatFails
    {
      if state == Leader {
        return false;
      }
      return now - lastHeartbeat > heartbeatSecs * heartbeatFails;
    }
  }
}
