/**
 What a node's state and current term say about who leads. The closing lock of a campaign does not look at
 the term again, so "state Leader" and "current term" may come from different elections.
 */
module ElectionLeaders {
  import opened Basics
  import opened Election
  import opened ElectionRuns

  ghost predicate WonBy(s: Cluster, n: nat, term: nat) {
    exists c: nat :: Winner(s, c) && s.campaigns[c].node == n && s.campaigns[c].term == term
  }

  /** Every node in state Leader has won its own current term. */
  ghost predicate LeadersWonTheirTerm(s: Cluster) {
    forall n: nat | n < |s.nodes| && s.nodes[n].state == Leader :: WonBy(s, n, s.nodes[n].currentTerm)
  }

  /** The driver of a node awaits one campaign before it opens the next. */
  ghost predicate OneCampaignAtATime(s: Cluster) {
    forall c, d | 0 <= c < d < |s.campaigns| && s.campaigns[c].node == s.campaigns[d].node ::
      s.campaigns[c].phase != Polling
  }

  /** The node that closes a winning campaign is still in the campaign's term. */
  predicate Timely(s: Cluster, step: Step)
    requires Enabled(s, step)
  {
    step.Close? && s.campaigns[step.campaign].granted >= Quorum(|s.nodes|) ==>
      s.nodes[s.campaigns[step.campaign].node].currentTerm == s.campaigns[step.campaign].term
  }

  lemma WinnersStay(s: Cluster, step: Step, n: nat, term: nat)
    requires Shape(s) && Enabled(s, step) && WonBy(s, n, term)
    ensures WonBy(Apply(s, step), n, term)
  {
    var c: nat :| Winner(s, c) && s.campaigns[c].node == n && s.campaigns[c].term == term;
    assert Winner(Apply(s, step), c);
  }

  lemma TimelyStepKeepsLeaders(s: Cluster, step: Step)
    requires Inv(s) && LeadersWonTheirTerm(s) && Enabled(s, step) && Timely(s, step)
    ensures LeadersWonTheirTerm(Apply(s, step))
  {
    var s' := Apply(s, step);
    StepFrame(s, step);
    forall n: nat | n < |s'.nodes| && s'.nodes[n].state == Leader
      ensures WonBy(s', n, s'.nodes[n].currentTerm)
    {
      if step.Close? && n == s.campaigns[step.campaign].node {
        assert Winner(s', step.campaign);
      } else {
        if step.Handle? && n == step.voter {
          VoteStepMonotone(s.nodes[n], s.tokens[n], Request(s, step.campaign), step.localSeq);
        }
        WinnersStay(s, step, n, s.nodes[n].currentTerm);
      }
    }
  }

  /** A winning campaign may close at any later time. Doing so keeps "every leader has won its own current
      term" exactly when the node is still in the campaign's term. */
  lemma CloseKeepsLeadersIff(s: Cluster, c: nat)
    requires Inv(s) && LeadersWonTheirTerm(s) && OneCampaignAtATime(s)
    requires Enabled(s, Close(c)) && s.campaigns[c].granted >= Quorum(|s.nodes|)
    ensures LeadersWonTheirTerm(Apply(s, Close(c)))
            <==> s.nodes[s.campaigns[c].node].currentTerm == s.campaigns[c].term
  {
    var s' := Apply(s, Close(c));
    var n := s.campaigns[c].node;
    if Timely(s, Close(c)) {
      TimelyStepKeepsLeaders(s, Close(c));
    } else {
      forall d: nat | Winner(s', d) && s'.campaigns[d].node == n
        ensures s'.campaigns[d].term != s'.nodes[n].currentTerm
      {
        assert d == c || s.campaigns[d].term < s.campaigns[c].term;
      }
      assert !WonBy(s', n, s'.nodes[n].currentTerm);
      assert s'.nodes[n].state == Leader;
    }
  }

  predicate TimelyRun(s: Cluster, steps: seq<Step>)
    requires CanRun(s, steps)
    decreases |steps|
  {
    steps == [] || (Timely(s, steps[0]) && TimelyRun(Apply(s, steps[0]), steps[1..]))
  }

  lemma {:induction false} TimelyRunKeepsLeaders(s: Cluster, steps: seq<Step>)
    requires Inv(s) && LeadersWonTheirTerm(s) && CanRun(s, steps) && TimelyRun(s, steps)
    ensures LeadersWonTheirTerm(After(s, steps))
    decreases |steps|
  {
    if steps != [] {
      TimelyStepKeepsLeaders(s, steps[0]);
      StepInv(s, steps[0]);
      TimelyRunKeepsLeaders(Apply(s, steps[0]), steps[1..]);
    }
  }

  /** In a run whose winning campaigns all close in their own term, two leaders with the same current term
      are the same node. */
  lemma OneLeaderPerCurrentTerm(tokens: seq<Option<Bytes>>, steps: seq<Step>, a: nat, b: nat)
    requires CanRun(Start(tokens), steps) && TimelyRun(Start(tokens), steps)
    requires var s := After(Start(tokens), steps);
             && a < |s.nodes| && b < |s.nodes| && s.nodes[a].state == Leader && s.nodes[b].state == Leader
             && s.nodes[a].currentTerm == s.nodes[b].currentTerm
    ensures a == b
  {
    StartInv(tokens);
    TimelyRunKeepsLeaders(Start(tokens), steps);
    var s := After(Start(tokens), steps);
    var c: nat :| Winner(s, c) && s.campaigns[c].node == a && s.campaigns[c].term == s.nodes[a].currentTerm;
    var d: nat :| Winner(s, d) && s.campaigns[d].node == b && s.campaigns[d].term == s.nodes[b].currentTerm;
    ElectionSafety(tokens, steps, c, d);
  }

  // ---------------------------------------------------------------- a run that shows the limit

  lemma {:induction false} Extend(s: Cluster, steps: seq<Step>, step: Step)
    requires CanRun(s, steps) && Enabled(After(s, steps), step)
    ensures CanRun(s, steps + [step])
    ensures After(s, steps + [step]) == Apply(After(s, steps), step)
    decreases |steps|
  {
    var all := steps + [step];
    if steps == [] {
      assert all[0] == step && all[1..] == [];
    } else {
      assert all[0] == steps[0] && all[1..] == steps[1..] + [step];
      Extend(Apply(s, steps[0]), steps[1..], step);
    }
  }

  /** Steps the run `past` from `from` to `now` once more. */
  lemma Go(from: Cluster, past: seq<Step>, now: Cluster, step: Step) returns (steps: seq<Step>, next: Cluster)
    requires CanRun(from, past) && After(from, past) == now && Enabled(now, step)
    ensures steps == past + [step] && next == Apply(now, step)
    ensures CanRun(from, steps) && After(from, steps) == next
  {
    Extend(from, past, step);
    steps, next := past + [step], Apply(now, step);
  }

  /** Without the closing guard, two of three nodes can be in state Leader with the same current term:
      node 0 wins term 1 but closes its campaign only after it has voted for node 2 in term 2. */
  lemma TwoLeadersShareACurrentTerm() returns (steps: seq<Step>)
    ensures var tokens := [None, None, None];
            && CanRun(Start(tokens), steps)
            && var s := After(Start(tokens), steps);
               && |s.nodes| == 3
               && s.nodes[0].state == Leader && s.nodes[2].state == Leader
               && s.nodes[0].currentTerm == s.nodes[2].currentTerm
  {
    var from := Start([None, None, None]);
    var s := from;
    steps := [];
    steps, s := Go(from, steps, s, Begin(0, 0));
    steps, s := Go(from, steps, s, Skip(0));
    steps, s := Go(from, steps, s, Handle(0, 1, 0));
    steps, s := Go(from, steps, s, Receive(Reply(0, 1, VoteResponse(1, true, 0))));
    steps, s := Go(from, steps, s, Skip(0));
    assert s.campaigns[0].granted == 2 && s.nodes[2] == FRESH;
    steps, s := Go(from, steps, s, Begin(2, 0));
    steps, s := Go(from, steps, s, Skip(1));
    steps, s := Go(from, steps, s, Skip(1));
    steps, s := Go(from, steps, s, Skip(1));
    steps, s := Go(from, steps, s, Close(1));
    steps, s := Go(from, steps, s, Begin(2, 0));
    assert s.campaigns[2].term == 2;
    steps, s := Go(from, steps, s, Handle(2, 0, 0));
    steps, s := Go(from, steps, s, Receive(Reply(2, 0, VoteResponse(2, true, 0))));
    steps, s := Go(from, steps, s, Skip(2));
    steps, s := Go(from, steps, s, Skip(2));
    steps, s := Go(from, steps, s, Close(2));
    assert s.nodes[2].state == Leader && s.nodes[2].currentTerm == 2;
    steps, s := Go(from, steps, s, Close(0));
  }
}
