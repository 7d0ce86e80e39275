/**
 How far the logs of candidates reach. What a node has recorded may come from its own log or from a heartbeat; a
 candidate asks with the end of its own log.
 */
module ElectionLogs {
  import opened Basics
  import opened Election
  import opened ElectionRuns
  import opened ElectionLeaders

  // ---------------------------------------------------------------- logs that do not shrink

  /** `own` holds the last log position each node reported, when it asked for votes or was asked for one. No node
      reports less than before, and no heartbeat tells a node of a position beyond its own log. */
  predicate Steady(own: seq<int>, step: Step) {
    match step
    case Begin(n, seen) => n < |own| && own[n] <= seen
    case Handle(_, v, localSeq) => v < |own| && own[v] <= localSeq
    case Heartbeat(n, leaderSeq) => n < |own| && leaderSeq <= own[n]
    case _ => true
  }

  function Reported(own: seq<int>, step: Step): seq<int>
    requires Steady(own, step)
  {
    match step
    case Begin(n, seen) => own[n := seen]
    case Handle(_, v, localSeq) => own[v := localSeq]
    case _ => own
  }

  predicate SteadyRun(own: seq<int>, steps: seq<Step>)
    decreases |steps|
  {
    steps == [] || (Steady(own, steps[0]) && SteadyRun(Reported(own, steps[0]), steps[1..]))
  }

  /** No node has recorded more than its own log. */
  predicate OwnRecords(s: Cluster, own: seq<int>) {
    |own| == |s.nodes| && forall n | 0 <= n < |own| :: s.nodes[n].lastSeq <= own[n]
  }

  /** Whoever a node votes for in a later term, itself included, asks with a log that reaches at least what the node
      had recorded at its earlier vote. */
  ghost predicate FullLogOrder(s: Cluster)
    requires Shape(s)
  {
    forall v, w | v in s.votes && w in s.votes && v.voter == w.voter
                  && s.campaigns[v.campaign].term < s.campaigns[w.campaign].term ::
      v.recorded <= s.campaigns[w.campaign].lastSeq
  }

  lemma SteadyKeepsOwn(s: Cluster, own: seq<int>, step: Step)
    requires Shape(s) && Enabled(s, step) && OwnRecords(s, own) && Steady(own, step)
    ensures OwnRecords(Apply(s, step), Reported(own, step))
  {
  }

  /** A new vote goes to a candidate that reaches what the voter had recorded so far. */
  lemma NewVoteReaches(s: Cluster, own: seq<int>, step: Step, w: Vote)
    requires Inv(s) && Enabled(s, step) && OwnRecords(s, own) && Steady(own, step)
    requires w in Apply(s, step).votes && w !in s.votes
    ensures w.voter < |s.nodes| && w.campaign < |Apply(s, step).campaigns|
    ensures s.nodes[w.voter].lastSeq <= Apply(s, step).campaigns[w.campaign].lastSeq
  {
    NewVote(s, step, w);
  }

  lemma SteadyKeepsOrder(s: Cluster, own: seq<int>, step: Step, v: Vote, w: Vote)
    requires Inv(s) && FullLogOrder(s) && Enabled(s, step) && OwnRecords(s, own) && Steady(own, step)
    requires Shape(Apply(s, step))
    requires v in Apply(s, step).votes && w in Apply(s, step).votes && v.voter == w.voter
    requires var s' := Apply(s, step); s'.campaigns[v.campaign].term < s'.campaigns[w.campaign].term
    ensures v.recorded <= Apply(s, step).campaigns[w.campaign].lastSeq
  {
    StepFrame(s, step);
    KeepsVotes(s, step);
    if v !in s.votes {
      NewVote(s, step, v);
    }
    if w !in s.votes {
      NewVoteReaches(s, own, step, w);
    }
  }

  lemma SteadyStep(s: Cluster, own: seq<int>, step: Step)
    requires Inv(s) && FullLogOrder(s) && Enabled(s, step) && OwnRecords(s, own) && Steady(own, step)
    ensures Inv(Apply(s, step)) && FullLogOrder(Apply(s, step)) && OwnRecords(Apply(s, step), Reported(own, step))
  {
    var s' := Apply(s, step);
    StepInv(s, step);
    SteadyKeepsOwn(s, own, step);
    forall v, w | v in s'.votes && w in s'.votes && v.voter == w.voter
                  && s'.campaigns[v.campaign].term < s'.campaigns[w.campaign].term
      ensures v.recorded <= s'.campaigns[w.campaign].lastSeq
    {
      SteadyKeepsOrder(s, own, step, v, w);
    }
  }

  lemma {:induction false} SteadyRunKeeps(s: Cluster, own: seq<int>, steps: seq<Step>)
    requires Inv(s) && FullLogOrder(s) && OwnRecords(s, own) && CanRun(s, steps) && SteadyRun(own, steps)
    ensures Inv(After(s, steps)) && FullLogOrder(After(s, steps))
    decreases |steps|
  {
    if steps != [] {
      SteadyStep(s, own, steps[0]);
      SteadyRunKeeps(Apply(s, steps[0]), Reported(own, steps[0]), steps[1..]);
    }
  }

  function NothingReported(nodes: nat): seq<int> {
    seq(nodes, _ => 0)
  }

  /** While logs do not shrink and no heartbeat runs ahead of them, the order between terms has no exception: if
      campaigns win in terms t1 < t2, some node voted in both, and the later candidate's log reaches what that node
      had recorded at its earlier vote. */
  lemma SteadyCrossTermLogOrder(tokens: seq<Option<Bytes>>, steps: seq<Step>, c: nat, d: nat)
    returns (v: Vote, w: Vote)
    requires CanRun(Start(tokens), steps) && SteadyRun(NothingReported(|tokens|), steps)
    requires Winner(After(Start(tokens), steps), c) && Winner(After(Start(tokens), steps), d)
    requires After(Start(tokens), steps).campaigns[c].term < After(Start(tokens), steps).campaigns[d].term
    ensures var s := After(Start(tokens), steps);
            && v in s.votes && w in s.votes && v.voter == w.voter && v.campaign == c && w.campaign == d
            && v.recorded <= s.campaigns[d].lastSeq
  {
    StartInv(tokens);
    SteadyRunKeeps(Start(tokens), NothingReported(|tokens|), steps);
    v, w := CrossTermLogOrder(tokens, steps, c, d);
  }

  // ---------------------------------------------------------------- a heartbeat ahead of the log

  /** What the step reports of node 1's own log is that it ends at 3. */
  predicate ReportsThree(step: Step) {
    && (step.Begin? && step.node == 1 ==> step.lastSeq == 3)
    && (step.Handle? && step.voter == 1 ==> step.localSeq == 3)
  }

  /** Node 0 wins term 1 with the vote of node 1, which a heartbeat has told of position 5. */
  lemma FirstTerm(from: Cluster) returns (steps: seq<Step>, s: Cluster)
    requires from == Start([None, None, None])
    ensures CanRun(from, steps) && After(from, steps) == s && forall step | step in steps :: ReportsThree(step)
    ensures |s.nodes| == 3 && s.tokens == from.tokens && s.nodes[2] == FRESH && s.nodes[1].currentTerm == 1
    ensures |s.campaigns| == 1 && s.campaigns[0].phase == Won && s.campaigns[0].term == 1 && Vote(1, 0, 5) in s.votes
  {
    s, steps := from, [];
    steps, s := Go(from, steps, s, Heartbeat(1, 5));
    steps, s := Go(from, steps, s, Begin(0, 5));
    steps, s := Go(from, steps, s, Skip(0));
    steps, s := Go(from, steps, s, Handle(0, 1, 3));
    steps, s := Go(from, steps, s, Receive(Reply(0, 1, VoteResponse(1, true, 5))));
    steps, s := Go(from, steps, s, Skip(0));
    steps, s := Go(from, steps, s, Close(0));
  }

  /** Then node 1 wins term 2 with the vote of node 2. */
  lemma SecondTerm(from: Cluster, past: seq<Step>, now: Cluster) returns (steps: seq<Step>, s: Cluster)
    requires CanRun(from, past) && After(from, past) == now && forall step | step in past :: ReportsThree(step)
    requires |now.nodes| == 3 && now.tokens == [None, None, None] && now.nodes[2] == FRESH
    requires now.nodes[1].currentTerm == 1 && |now.campaigns| == 1
    ensures CanRun(from, steps) && After(from, steps) == s && forall step | step in steps :: ReportsThree(step)
    ensures |s.campaigns| == 2 && s.campaigns[0] == now.campaigns[0] && now.votes <= s.votes
    ensures var c := s.campaigns[1]; c.phase == Won && c.term == 2 && c.node == 1 && c.lastSeq == 3
  {
    s, steps := now, past;
    steps, s := Go(from, steps, s, Begin(1, 3));
    steps, s := Go(from, steps, s, Skip(1));
    steps, s := Go(from, steps, s, Skip(1));
    steps, s := Go(from, steps, s, Handle(1, 2, 0));
    steps, s := Go(from, steps, s, Receive(Reply(1, 2, VoteResponse(2, true, 0))));
    steps, s := Go(from, steps, s, Close(1));
  }

  /** A heartbeat ahead of the own log makes the exception real. Node 1's log ends at 3 throughout, but a heartbeat
      has told it of 5, which is what it has recorded when it votes in term 1; it then wins term 2 with a request
      that claims 3. */
  lemma OwnCandidateMayLagItsRecord() returns (steps: seq<Step>)
    ensures var tokens := [None, None, None];
            && CanRun(Start(tokens), steps)
            && var s := After(Start(tokens), steps);
               && Winner(s, 0) && Winner(s, 1) && s.campaigns[0].term < s.campaigns[1].term
               && Vote(1, 0, 5) in s.votes && s.campaigns[1].node == 1 && s.campaigns[1].lastSeq == 3
    ensures forall step | step in steps :: ReportsThree(step)
  {
    var from := Start([None, None, None]);
    assert from.tokens == [None, None, None];
    var past, now := FirstTerm(from);
    var s;
    steps, s := SecondTerm(from, past, now);
  }
}
