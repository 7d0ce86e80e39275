/**
 The election as a message-passing protocol over any number of nodes: campaigns open, poll their peers
 one by one, requests and answers may be lost, delayed or repeated, and campaigns close, in any order.
 */
module ElectionRuns {
  import opened Basics
  import opened Election

  datatype Phase = Polling | Won | Lost

  /** A campaign in progress: `next` is the node it asks next and `granted` its running count of votes.
      `voters` records who was counted. */
  datatype Campaign = Campaign(node: nat, term: nat, lastSeq: int, next: nat, granted: nat, voters: set<nat>,
                               phase: Phase)

  /** History: `voter` voted for the candidate of campaign number `campaign` and then had `recorded` as
      its log position. */
  datatype Vote = Vote(voter: nat, campaign: nat, recorded: int)

  datatype Reply = Reply(campaign: nat, voter: nat, response: VoteResponse)

  datatype Cluster = Cluster(nodes: seq<Runtime>, tokens: seq<Option<Bytes>>, campaigns: seq<Campaign>,
                             replies: set<Reply>, votes: set<Vote>)

  /** Steps:
      - Begin: a node opens a campaign with the log position its provider reports;
      - Handle: a peer that has been contacted answers the campaign's request (late or again, too);
      - Receive: the campaign reads the answer of the peer it is waiting for;
      - Skip: it passes over itself, or over a peer whose request or answer is lost;
      - Close: all peers polled, the campaign decides;
      - Heartbeat: a lease refresh. */
  datatype Step =
    | Begin(node: nat, lastSeq: int)
    | Handle(campaign: nat, voter: nat, localSeq: int)
    | Receive(reply: Reply)
    | Skip(campaign: nat)
    | Close(campaign: nat)
    | Heartbeat(node: nat, leaderSeq: int)

  function Start(tokens: seq<Option<Bytes>>): Cluster {
    Cluster(seq(|tokens|, _ => FRESH), tokens, [], {}, {})
  }

  predicate Asking(s: Cluster, c: nat) {
    c < |s.campaigns| && s.campaigns[c].phase == Polling && s.campaigns[c].next < |s.nodes|
  }

  predicate Enabled(s: Cluster, step: Step) {
    |s.tokens| == |s.nodes| &&
    match step
    case Begin(n, _) => n < |s.nodes|
    case Handle(c, v, _) => c < |s.campaigns| && v < |s.nodes| && v <= s.campaigns[c].next
                            && v != s.campaigns[c].node && s.campaigns[c].node < |s.nodes|
    case Receive(r) => Asking(s, r.campaign) && r in s.replies
                       && r.voter == s.campaigns[r.campaign].next && r.voter != s.campaigns[r.campaign].node
    case Skip(c) => Asking(s, c)
    case Close(c) => c < |s.campaigns| && s.campaigns[c].phase == Polling && s.campaigns[c].next == |s.nodes|
                     && s.campaigns[c].node < |s.nodes|
    case Heartbeat(n, _) => n < |s.nodes|
  }

  /** The request that the node of a campaign sends to each peer. */
  function Request(s: Cluster, c: nat): VoteRequest
    requires c < |s.campaigns| && s.campaigns[c].node < |s.tokens|
  {
    var camp := s.campaigns[c];
    VoteRequest(camp.term, camp.node, camp.lastSeq, Presented(s.tokens[camp.node]))
  }

  function Apply(s: Cluster, step: Step): Cluster
    requires Enabled(s, step)
  {
    match step
    case Begin(n, seen) =>
      var st := StartCampaign(s.nodes[n], n, seen);
      var c := |s.campaigns|;
      s.(nodes := s.nodes[n := st],
         campaigns := s.campaigns + [Campaign(n, st.currentTerm, seen, 0, 1, {n}, Polling)],
         votes := s.votes + {Vote(n, c, st.lastSeq)})
    case Handle(c, v, localSeq) =>
      var (st, resp) := AnswerVote(s.nodes[v], s.tokens[v], Request(s, c), localSeq);
      s.(nodes := s.nodes[v := st],
         replies := s.replies + {Reply(c, v, resp)},
         votes := if resp.granted then s.votes + {Vote(v, c, resp.voterLastSeq)} else s.votes)
    case Receive(r) =>
      var camp := s.campaigns[r.campaign];
      var counted := if r.response.granted
                     then camp.(next := camp.next + 1, granted := camp.granted + 1, voters := camp.voters + {r.voter})
                     else camp.(next := camp.next + 1);
      s.(campaigns := s.campaigns[r.campaign := counted])
    case Skip(c) =>
      s.(campaigns := s.campaigns[c := s.campaigns[c].(next := s.campaigns[c].next + 1)])
    case Close(c) =>
      var camp := s.campaigns[c];
      var quorum := Quorum(|s.nodes|);
      s.(nodes := s.nodes[camp.node := FinishCampaign(s.nodes[camp.node], camp.granted, quorum)],
         campaigns := s.campaigns[c := camp.(phase := if camp.granted >= quorum then Won else Lost)])
    case Heartbeat(n, leaderSeq) =>
      s.(nodes := s.nodes[n := s.nodes[n].(lastSeq := Max(s.nodes[n].lastSeq, leaderSeq))])
  }

  /** A campaign that opens asks for the node's next term in its own name, with the log position just reported and
      the node's token. */
  lemma CampaignAsksForItself(s: Cluster, n: nat, seen: int)
    requires Enabled(s, Begin(n, seen))
    ensures var s', term := Apply(s, Begin(n, seen)), s.nodes[n].currentTerm + 1;
            && s'.nodes[n] == Runtime(Candidate, term, Some(n), Max(s.nodes[n].lastSeq, seen))
            && |s'.campaigns| == |s.campaigns| + 1
            && Request(s', |s.campaigns|)
               == VoteRequest(term, n, seen, if s.tokens[n].Some? then s.tokens[n].value else [])
  {
  }

  predicate CanRun(s: Cluster, steps: seq<Step>)
    decreases |steps|
  {
    steps == [] || (Enabled(s, steps[0]) && CanRun(Apply(s, steps[0]), steps[1..]))
  }

  function After(s: Cluster, steps: seq<Step>): Cluster
    requires CanRun(s, steps)
    decreases |steps|
  {
    if steps == [] then s else After(Apply(s, steps[0]), steps[1..])
  }

  // ---------------------------------------------------------------- what every step keeps

  ghost predicate Voted(s: Cluster, voter: nat, c: nat) {
    exists recorded :: Vote(voter, c, recorded) in s.votes
  }

  ghost predicate Shape(s: Cluster) {
    && |s.tokens| == |s.nodes|
    && (forall c | 0 <= c < |s.campaigns| :: s.campaigns[c].node < |s.nodes| && s.campaigns[c].next <= |s.nodes|)
    && (forall v | v in s.votes :: v.voter < |s.nodes| && v.campaign < |s.campaigns|)
    && (forall r | r in s.replies :: r.campaign < |s.campaigns| && r.voter < |s.nodes|)
  }

  /** A node's terms only grow, so its campaigns carry distinct, increasing terms. */
  ghost predicate CampaignTerms(s: Cluster)
    requires Shape(s)
  {
    && (forall c | 0 <= c < |s.campaigns| :: s.campaigns[c].term <= s.nodes[s.campaigns[c].node].currentTerm)
    && (forall c, d | 0 <= c < d < |s.campaigns| && s.campaigns[c].node == s.campaigns[d].node ::
          s.campaigns[c].term < s.campaigns[d].term)
  }

  /** A vote stays visible in the voter's term, choice and recorded position. */
  ghost predicate VotesRemembered(s: Cluster)
    requires Shape(s)
  {
    forall v | v in s.votes ::
      && s.campaigns[v.campaign].term <= s.nodes[v.voter].currentTerm
      && v.recorded <= s.nodes[v.voter].lastSeq
      && (s.campaigns[v.campaign].term == s.nodes[v.voter].currentTerm ==>
            s.nodes[v.voter].votedFor == Some(s.campaigns[v.campaign].node))
  }

  /** One vote per node per term. */
  ghost predicate OneVotePerTerm(s: Cluster)
    requires Shape(s)
  {
    forall v, w | v in s.votes && w in s.votes && v.voter == w.voter
                  && s.campaigns[v.campaign].term == s.campaigns[w.campaign].term ::
      v.campaign == w.campaign
  }

  /** A vote given to another node in a later term went to a candidate whose log reaches at least as far
      as the voter's recorded position after its earlier vote. */
  ghost predicate LogOrder(s: Cluster)
    requires Shape(s)
  {
    forall v, w | v in s.votes && w in s.votes && v.voter == w.voter
                  && s.campaigns[v.campaign].term < s.campaigns[w.campaign].term
                  && s.campaigns[w.campaign].node != w.voter ::
      v.recorded <= s.campaigns[w.campaign].lastSeq
  }

  ghost predicate CountTrue(s: Cluster, c: nat)
    requires c < |s.campaigns|
  {
    var camp := s.campaigns[c];
    && camp.granted == |camp.voters|
    && (forall v | v in camp.voters :: Voted(s, v, c) && (v < camp.next || v == camp.node))
    && (camp.phase == Won ==> camp.granted >= Quorum(|s.nodes|))
  }

  /** A counted vote is a vote that was cast, and nobody is counted twice. */
  ghost predicate CountsVotes(s: Cluster)
    requires Shape(s)
  {
    && (forall r | r in s.replies && r.response.granted :: Voted(s, r.voter, r.campaign))
    && (forall c: nat | c < |s.campaigns| :: CountTrue(s, c))
  }

  ghost predicate Inv(s: Cluster) {
    Shape(s) && CampaignTerms(s) && VotesRemembered(s) && OneVotePerTerm(s) && LogOrder(s) && CountsVotes(s)
  }

  lemma StartInv(tokens: seq<Option<Bytes>>)
    ensures Inv(Start(tokens))
  {
  }

  /** What a step leaves alone: a campaign's identity, the votes cast, and the direction of terms. A vote
      of a term that has not passed is not changed. */
  lemma StepFrame(s: Cluster, step: Step)
    requires Shape(s) && Enabled(s, step)
    ensures var s' := Apply(s, step);
            && Shape(s')
            && |s'.nodes| == |s.nodes| && |s'.campaigns| >= |s.campaigns|
            && s.votes <= s'.votes
            && (forall c | 0 <= c < |s.campaigns| ::
                  && s'.campaigns[c].node == s.campaigns[c].node
                  && s'.campaigns[c].term == s.campaigns[c].term
                  && s'.campaigns[c].lastSeq == s.campaigns[c].lastSeq)
            && (forall n | 0 <= n < |s.nodes| ::
                  && s.nodes[n].currentTerm <= s'.nodes[n].currentTerm
                  && s.nodes[n].lastSeq <= s'.nodes[n].lastSeq
                  && (s.nodes[n].currentTerm == s'.nodes[n].currentTerm && s.nodes[n].votedFor.Some? ==>
                        s'.nodes[n].votedFor == s.nodes[n].votedFor))
  {
  }

  /** A vote cast by this step is for the voter's term as it now stands. Given to another node, its
      candidate's log reached at least the voter's recorded position before the vote. */
  lemma NewVote(s: Cluster, step: Step, v: Vote)
    requires Shape(s) && Enabled(s, step) && v in Apply(s, step).votes && v !in s.votes
    ensures var s' := Apply(s, step);
            && v.voter < |s.nodes| && v.campaign < |s'.campaigns|
            && s'.campaigns[v.campaign].term == s'.nodes[v.voter].currentTerm
            && s'.nodes[v.voter].votedFor == Some(s'.campaigns[v.campaign].node)
            && v.recorded == s'.nodes[v.voter].lastSeq
            && (s'.campaigns[v.campaign].node == v.voter ||
                s.nodes[v.voter].lastSeq <= s'.campaigns[v.campaign].lastSeq)
  {
    if step.Handle? {
      GrantIffCriteria(s.nodes[step.voter], s.tokens[step.voter], Request(s, step.campaign), step.localSeq);
    }
  }

  lemma KeepsCampaignTerms(s: Cluster, step: Step)
    requires Inv(s) && Enabled(s, step)
    ensures Shape(Apply(s, step)) && CampaignTerms(Apply(s, step))
  {
    StepFrame(s, step);
  }

  lemma KeepsVotes(s: Cluster, step: Step)
    requires Inv(s) && Enabled(s, step)
    ensures Shape(Apply(s, step)) && VotesRemembered(Apply(s, step))
  {
    StepFrame(s, step);
    var s' := Apply(s, step);
    forall v | v in s'.votes
      ensures s'.campaigns[v.campaign].term <= s'.nodes[v.voter].currentTerm
      ensures v.recorded <= s'.nodes[v.voter].lastSeq
      ensures s'.campaigns[v.campaign].term == s'.nodes[v.voter].currentTerm ==>
                s'.nodes[v.voter].votedFor == Some(s'.campaigns[v.campaign].node)
    {
      if v !in s.votes {
        NewVote(s, step, v);
      }
    }
  }

  lemma KeepsOneVote(s: Cluster, step: Step, v: Vote, w: Vote)
    requires Inv(s) && Enabled(s, step) && Shape(Apply(s, step))
    requires v in Apply(s, step).votes && w in Apply(s, step).votes && v.voter == w.voter
    requires var s' := Apply(s, step); s'.campaigns[v.campaign].term == s'.campaigns[w.campaign].term
    ensures v.campaign == w.campaign
  {
    StepFrame(s, step);
    KeepsCampaignTerms(s, step);
    KeepsVotes(s, step);
    if v !in s.votes {
      NewVote(s, step, v);
    }
    if w !in s.votes {
      NewVote(s, step, w);
    }
  }

  lemma KeepsLogOrder(s: Cluster, step: Step, v: Vote, w: Vote)
    requires Inv(s) && Enabled(s, step) && Shape(Apply(s, step))
    requires v in Apply(s, step).votes && w in Apply(s, step).votes && v.voter == w.voter
    requires var s' := Apply(s, step);
             s'.campaigns[v.campaign].term < s'.campaigns[w.campaign].term && s'.campaigns[w.campaign].node != w.voter
    ensures v.recorded <= Apply(s, step).campaigns[w.campaign].lastSeq
  {
    StepFrame(s, step);
    KeepsVotes(s, step);
    if v !in s.votes {
      NewVote(s, step, v);
    }
    if w !in s.votes {
      NewVote(s, step, w);
    }
  }

  lemma KeepsVoted(s: Cluster, step: Step)
    requires Shape(s) && Enabled(s, step)
    ensures forall v: nat, c: nat :: Voted(s, v, c) ==> Voted(Apply(s, step), v, c)
  {
    forall v: nat, c: nat | Voted(s, v, c) ensures Voted(Apply(s, step), v, c) {
      var recorded :| Vote(v, c, recorded) in s.votes;
      assert Vote(v, c, recorded) in Apply(s, step).votes;
    }
  }

  lemma KeepsRepliesTrue(s: Cluster, step: Step, r: Reply)
    requires Inv(s) && Enabled(s, step) && r in Apply(s, step).replies && r.response.granted
    ensures Voted(Apply(s, step), r.voter, r.campaign)
  {
    KeepsVoted(s, step);
    if r !in s.replies {
      assert Vote(r.voter, r.campaign, r.response.voterLastSeq) in Apply(s, step).votes;
    }
  }

  /** A campaign that counts nobody new stays true, however far it has asked. */
  lemma CountCarries(s: Cluster, s': Cluster, c: nat)
    requires c < |s.campaigns| && c < |s'.campaigns| && CountTrue(s, c) && |s'.nodes| == |s.nodes|
    requires forall v: nat, d: nat :: Voted(s, v, d) ==> Voted(s', v, d)
    requires var camp, camp' := s.campaigns[c], s'.campaigns[c];
             && camp'.granted == camp.granted && camp'.voters == camp.voters && camp'.node == camp.node
             && camp.next <= camp'.next && (camp'.phase == Won ==> camp.granted >= Quorum(|s.nodes|))
    ensures CountTrue(s', c)
  {
  }

  lemma OpenedCountsItself(s: Cluster, step: Step)
    requires Enabled(s, step) && step.Begin?
    ensures CountTrue(Apply(s, step), |s.campaigns|)
  {
    var s' := Apply(s, step);
    assert Vote(step.node, |s.campaigns|, s'.nodes[step.node].lastSeq) in s'.votes;
  }

  lemma ReceivedCounts(s: Cluster, step: Step)
    requires Inv(s) && Enabled(s, step) && step.Receive? && step.reply.response.granted
    ensures CountTrue(Apply(s, step), step.reply.campaign)
  {
    var c := step.reply.campaign;
    assert CountTrue(s, c) && Voted(s, step.reply.voter, c);
    KeepsVoted(s, step);
  }

  lemma KeepsCount(s: Cluster, step: Step, c: nat)
    requires Inv(s) && Enabled(s, step) && c < |Apply(s, step).campaigns|
    ensures CountTrue(Apply(s, step), c)
  {
    if step.Begin? && c == |s.campaigns| {
      OpenedCountsItself(s, step);
    } else if step.Receive? && c == step.reply.campaign && step.reply.response.granted {
      ReceivedCounts(s, step);
    } else {
      assert CountTrue(s, c);
      KeepsVoted(s, step);
      CountCarries(s, Apply(s, step), c);
    }
  }

  lemma StepInv(s: Cluster, step: Step)
    requires Inv(s) && Enabled(s, step)
    ensures Inv(Apply(s, step))
  {
    var s' := Apply(s, step);
    KeepsCampaignTerms(s, step);
    KeepsVotes(s, step);
    forall v, w | v in s'.votes && w in s'.votes && v.voter == w.voter
                  && s'.campaigns[v.campaign].term == s'.campaigns[w.campaign].term
      ensures v.campaign == w.campaign
    {
      KeepsOneVote(s, step, v, w);
    }
    forall v, w | v in s'.votes && w in s'.votes && v.voter == w.voter
                  && s'.campaigns[v.campaign].term < s'.campaigns[w.campaign].term
                  && s'.campaigns[w.campaign].node != w.voter
      ensures v.recorded <= s'.campaigns[w.campaign].lastSeq
    {
      KeepsLogOrder(s, step, v, w);
    }
    forall r | r in s'.replies && r.response.granted ensures Voted(s', r.voter, r.campaign) {
      KeepsRepliesTrue(s, step, r);
    }
    forall c: nat | c < |s'.campaigns| ensures CountTrue(s', c) {
      KeepsCount(s, step, c);
    }
  }

  lemma {:induction false} RunInv(s: Cluster, steps: seq<Step>)
    requires Inv(s) && CanRun(s, steps)
    ensures Inv(After(s, steps))
    decreases |steps|
  {
    if steps != [] {
      StepInv(s, steps[0]);
      RunInv(Apply(s, steps[0]), steps[1..]);
    }
  }

  // ---------------------------------------------------------------- election safety

  predicate Winner(s: Cluster, c: nat) {
    c < |s.campaigns| && s.campaigns[c].phase == Won
  }

  /** Two winning campaigns share a voter, because two majorities of the same nodes do. */
  lemma SharedVoter(s: Cluster, c: nat, d: nat) returns (voter: nat)
    requires Inv(s) && Winner(s, c) && Winner(s, d)
    ensures Voted(s, voter, c) && Voted(s, voter, d)
  {
    var a, b := s.campaigns[c].voters, s.campaigns[d].voters;
    assert CountTrue(s, c) && CountTrue(s, d);
    if a !! b {
      DisjointSize(a, b);
      forall v | v in a + b ensures v in Range(|s.nodes|) {
        assert Voted(s, v, c) || Voted(s, v, d);
      }
      SubsetSize(a + b, Range(|s.nodes|));
      assert false;
    }
    voter :| voter in a && voter in b;
  }

  /** Over every interleaving, at most one campaign wins any given term. */
  lemma ElectionSafety(tokens: seq<Option<Bytes>>, steps: seq<Step>, c: nat, d: nat)
    requires CanRun(Start(tokens), steps)
    requires Winner(After(Start(tokens), steps), c) && Winner(After(Start(tokens), steps), d)
    requires After(Start(tokens), steps).campaigns[c].term == After(Start(tokens), steps).campaigns[d].term
    ensures c == d
  {
    StartInv(tokens);
    RunInv(Start(tokens), steps);
    var s := After(Start(tokens), steps);
    var voter := SharedVoter(s, c, d);
  }

  /** If campaigns win in terms t1 < t2, some node voted in both, and unless that node ran the later
      campaign itself, the later candidate's log reaches what it had recorded at its earlier vote. */
  lemma CrossTermLogOrder(tokens: seq<Option<Bytes>>, steps: seq<Step>, c: nat, d: nat) returns (v: Vote, w: Vote)
    requires CanRun(Start(tokens), steps)
    requires Winner(After(Start(tokens), steps), c) && Winner(After(Start(tokens), steps), d)
    requires After(Start(tokens), steps).campaigns[c].term < After(Start(tokens), steps).campaigns[d].term
    ensures var s := After(Start(tokens), steps);
            && v in s.votes && w in s.votes && v.voter == w.voter && v.campaign == c && w.campaign == d
            && v.voter < |s.nodes|
            && v.recorded <= s.nodes[v.voter].lastSeq
            && (s.campaigns[d].node != v.voter ==> v.recorded <= s.campaigns[d].lastSeq)
  {
    StartInv(tokens);
    RunInv(Start(tokens), steps);
    var s := After(Start(tokens), steps);
    var voter := SharedVoter(s, c, d);
    var r1 :| Vote(voter, c, r1) in s.votes;
    var r2 :| Vote(voter, d, r2) in s.votes;
    v, w := Vote(voter, c, r1), Vote(voter, d, r2);
  }

  /** One step never lowers a node's term or recorded log position. */
  lemma StepMonotone(s: Cluster, step: Step, n: nat)
    requires Enabled(s, step) && n < |s.nodes|
    ensures var s' := Apply(s, step);
            && |s'.nodes| == |s.nodes|
            && s.nodes[n].currentTerm <= s'.nodes[n].currentTerm
            && s.nodes[n].lastSeq <= s'.nodes[n].lastSeq
  {
  }

  lemma {:induction false} TermsAndPositionsNeverDecrease(s: Cluster, steps: seq<Step>, n: nat)
    requires CanRun(s, steps) && n < |s.nodes|
    ensures |After(s, steps).nodes| == |s.nodes|
    ensures s.nodes[n].currentTerm <= After(s, steps).nodes[n].currentTerm
    ensures s.nodes[n].lastSeq <= After(s, steps).nodes[n].lastSeq
    decreases |steps|
  {
    if steps != [] {
      StepMonotone(s, steps[0], n);
      TermsAndPositionsNeverDecrease(Apply(s, steps[0]), steps[1..], n);
    }
  }

  ghost predicate TermsBounded(s: Cluster) {
    && (forall n | 0 <= n < |s.nodes| :: s.nodes[n].currentTerm <= |s.campaigns|)
    && (forall c | 0 <= c < |s.campaigns| :: s.campaigns[c].term <= |s.campaigns|)
  }

  lemma {:induction false} TermsBoundedAfter(s: Cluster, steps: seq<Step>)
    requires CanRun(s, steps) && TermsBounded(s)
    ensures TermsBounded(After(s, steps))
    decreases |steps|
  {
    if steps != [] {
      assert TermsBounded(Apply(s, steps[0]));
      TermsBoundedAfter(Apply(s, steps[0]), steps[1..]);
    }
  }

  /** A term is never larger than the number of campaigns opened so far, so the 64-bit term counter
      cannot wrap before 2^64 campaigns. */
  lemma TermCounterFits(tokens: seq<Option<Bytes>>, steps: seq<Step>, n: nat)
    requires CanRun(Start(tokens), steps) && n < |tokens|
    requires |After(Start(tokens), steps).campaigns| < U64_LIMIT
    ensures n < |After(Start(tokens), steps).nodes|
    ensures After(Start(tokens), steps).nodes[n].currentTerm < U64_LIMIT
  {
    TermsBoundedAfter(Start(tokens), steps);
    TermsAndPositionsNeverDecrease(Start(tokens), steps, n);
  }
}
