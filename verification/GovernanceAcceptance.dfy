/** What the governor accepts, and the nine states, in terms of what is stored for
    a proposal: every call is accepted exactly under the conditions given here. */
module GovernanceAcceptance {
  import opened Basics
  import opened Ledgers
  import opened Governance
  import opened GovernanceProofs
  import opened GovernanceRuns

  /** Neither canceled nor vetoed. */
  predicate Standing(p: Proposal) {
    !p.canceled && !p.vetoed
  }

  /** Each state, whatever is asked first. */
  lemma StatesExactly(d: Dao, id: nat)
    requires Inv(d) && 1 <= id <= d.proposalCount
    ensures var p, s := d.P(id), d.State(id); var won := p.forVotes > p.againstVotes && p.forVotes >= p.quorumVotes;
      && (s == Vetoed <==> p.vetoed)
      && (s == Canceled <==> p.canceled && !p.vetoed)
      && (s == Executed <==> p.executed)
      && (s == Pending <==> Standing(p) && d.block <= p.startBlock)
      && (s == Active <==> Standing(p) && p.startBlock < d.block <= p.endBlock)
      && (s == Defeated <==> Standing(p) && p.endBlock < d.block && !won)
      && (s == Succeeded <==> Standing(p) && p.endBlock < d.block && won && p.eta == 0)
      && (s == Queued <==> Standing(p) && p.eta != 0 && !p.executed && d.time < p.eta + 14 * DAY)
      && (s == Expired <==> Standing(p) && p.eta != 0 && !p.executed && d.time >= p.eta + 14 * DAY)
  {
    hide OnlyLatestOpen, LatestOwned, QueueOwned, GoodTally, GoodReceipts, GoodTerms;
    GoodParts(d, id);
  }

  /** A vote is accepted from each voter once, in the voting window, for one of the
      three choices, while the voting delay does not reach back before block 0. */
  lemma VoteAccepted(d: Dao, voter: Address, id: nat, support: nat)
    requires Inv(d) && 1 <= id <= d.proposalCount
    ensures var p := d.P(id);
      Allowed(d, CastVote(voter, id, support)) <==>
      && Standing(p) && p.startBlock < d.block <= p.endBlock
      && voter !in p.receipts && (support == 0 || support == 1 || support == 2) && d.votingDelay <= p.startBlock
  {
    hide OnlyLatestOpen, LatestOwned, QueueOwned, GoodReceipts, GoodTerms, StateOf, Standing, Tally;
    GoodParts(d, id);
    StatesExactly(d, id);
  }

  /** Two actions of a proposal are the same. */
  predicate SameAction(p: Proposal, i: nat, j: nat)
    requires p.Arity() && i < |p.targets| && j < |p.targets|
  {
    && p.targets[i] == p.targets[j] && p.values[i] == p.values[j]
    && p.signatures[i] == p.signatures[j] && p.calldatas[i] == p.calldatas[j]
  }

  /** A proposal can be queued once voting ended with more votes for than against
      and the quorum, unless it was before, if its actions differ and none of
      them is pending for the same time. */
  lemma QueueAccepted(d: Dao, id: nat)
    requires Inv(d) && 1 <= id <= d.proposalCount
    ensures d.P(id).Arity()
    ensures var p := d.P(id);
      Allowed(d, Queue(id)) <==>
      && Standing(p) && p.endBlock < d.block && p.forVotes > p.againstVotes && p.forVotes >= p.quorumVotes && p.eta == 0
      && (forall i: nat, j: nat :: i < j < |p.targets| ==> !SameAction(p, i, j))
      && (forall i: nat :: i < |p.targets| ==>
            Tx(p.targets[i], p.values[i], p.signatures[i], p.calldatas[i], d.time + d.delay) !in d.queue)
  {
    hide OnlyLatestOpen, LatestOwned, QueueOwned, GoodReceipts, GoodTally, GoodTerms, StateOf, Standing;
    hide Proposal.Distinct, Proposal.Txs;
    GoodParts(d, id);
    StatesExactly(d, id);
    ActionsAt(d.P(id), d.time + d.delay, d.queue);
  }

  lemma ActionsAt(p: Proposal, eta: nat, queue: set<Tx>)
    requires p.Arity()
    ensures p.(eta := eta).Distinct() <==> forall i: nat, j: nat :: i < j < |p.targets| ==> !SameAction(p, i, j)
    ensures p.(eta := eta).Txs() !! queue <==> forall i: nat :: i < |p.targets| ==>
              Tx(p.targets[i], p.values[i], p.signatures[i], p.calldatas[i], eta) !in queue
  {
    var q := p.(eta := eta);
    assert forall i: nat :: i < |p.targets| ==>
             q.TxAt(i) == Tx(p.targets[i], p.values[i], p.signatures[i], p.calldatas[i], eta) && q.TxAt(i) in q.Txs();
    forall i: nat, j: nat | i < j < |p.targets| ensures q.TxAt(i) == q.TxAt(j) <==> SameAction(p, i, j) {}
    if !q.Distinct() {
      var i: nat, j: nat :| i < j < |p.targets| && q.TxAt(i) == q.TxAt(j);
      assert SameAction(p, i, j);
    }
  }

  /** A queued proposal can be executed from its eta on and for fourteen days, until
      it is executed, canceled or vetoed, if no target call fails. */
  lemma ExecuteAccepted(d: Dao, id: nat, failing: set<nat>)
    requires Inv(d) && AllPending(d) && QueuedDistinct(d) && 1 <= id <= d.proposalCount
    ensures var p := d.P(id);
      Allowed(d, Execute(id, failing)) <==>
      && Standing(p) && p.eta != 0 && !p.executed
      && p.eta <= d.time < p.eta + 14 * DAY
      && forall i: nat :: i < |p.targets| ==> i !in failing
  {
    hide OnlyLatestOpen, LatestOwned, QueueOwned, GoodTally, GoodReceipts, GoodTerms, StateOf;
    GoodParts(d, id);
    StatesExactly(d, id);
    assert id in d.proposals;
  }

  /** A proposal can be canceled until it is executed: by its proposer, and by anyone
      while the proposer's votes at the end of the last block are below the threshold. */
  lemma CancelAccepted(d: Dao, sender: Address, id: nat)
    requires Inv(d) && 1 <= id <= d.proposalCount
    ensures Allowed(d, Cancel(sender, id)) <==>
            !d.P(id).executed &&
            (sender == d.P(id).proposer ||
             (d.block > 0 && |d.history| == d.block &&
              d.history[d.block - 1].Votes(d.P(id).proposer) < d.P(id).proposalThreshold))
  {
    hide OnlyLatestOpen, LatestOwned, QueueOwned, GoodProposal, StateOf;
    StatesExactly(d, id);
  }

  /** And vetoed, by the vetoer alone, who cannot be the zero address. */
  lemma VetoAccepted(d: Dao, sender: Address, id: nat)
    requires Inv(d) && 1 <= id <= d.proposalCount
    ensures Allowed(d, Veto(sender, id)) <==> !d.P(id).executed && sender == d.vetoer && d.vetoer != ZERO
  {
    hide OnlyLatestOpen, LatestOwned, QueueOwned, GoodProposal, StateOf;
    StatesExactly(d, id);
  }

  /** A proposal with one to ten well-formed actions is accepted from exactly the
      accounts that had more than the threshold's share of the supply in votes at
      the end of the last block, and have no other proposal pending or active. */
  lemma ProposeAccepted(d: Dao, s: Step)
    requires Inv(d) && s.Propose?
    ensures Allowed(d, s) <==>
            && (d.block > 0 && |d.history| == d.block &&
                10000 * d.history[d.block - 1].Votes(s.proposer) > d.proposalThresholdBPS * d.ledger.Supply())
            && 1 <= |s.targets| <= 10
            && |s.values| == |s.targets| && |s.signatures| == |s.targets| && |s.calldatas| == |s.targets|
            && forall id: nat :: 1 <= id <= d.proposalCount && d.P(id).proposer == s.proposer ==>
                 !Standing(d.P(id)) || d.P(id).endBlock < d.block
  {
    hide QueueOwned, GoodProposal, StateOf, Ledger.Votes, Ledger.Supply, Bps2Uint, IsShare;
    ProposerFree(d, s.proposer);
    if d.block > 0 {
      AboveShare(d.history[d.block - 1].Votes(s.proposer), d.proposalThresholdBPS, d.ledger.Supply());
    }
  }

  lemma AboveShare(votes: int, bps: nat, supply: nat)
    ensures votes > Bps2Uint(bps, supply) <==> 10000 * votes > bps * supply
  {
  }

  /** Asking for the latest proposal is asking for all. */
  lemma ProposerFree(d: Dao, a: Address)
    requires Inv(d)
    ensures MayPropose(d, a) <==>
            forall id: nat :: 1 <= id <= d.proposalCount && d.P(id).proposer == a ==>
              !Standing(d.P(id)) || d.P(id).endBlock < d.block
  {
    hide Steady, QueueOwned, GoodProposal, StateOf, Standing;
    forall id: nat | 1 <= id <= d.proposalCount
      ensures d.Open(id) <==> Standing(d.P(id)) && d.block <= d.P(id).endBlock
    {
      OpenExactly(d, id);
    }
  }

  lemma OpenExactly(d: Dao, id: nat)
    requires Inv(d) && 1 <= id <= d.proposalCount
    ensures d.Open(id) <==> Standing(d.P(id)) && d.block <= d.P(id).endBlock
  {
    hide OnlyLatestOpen, LatestOwned, QueueOwned, GoodTally, GoodReceipts, GoodTerms, GoodPast;
    GoodParts(d, id);
    StatesExactly(d, id);
  }

  /** The admin sets the delay, the period, the threshold and the quorum within these
      bounds, and the timelock its own delay of two to thirty days. */
  lemma SettingAccepted(d: Dao, sender: Address, n: nat)
    requires Inv(d)
    ensures Allowed(d, SetVotingDelay(sender, n)) <==> sender == d.admin && 1 <= n <= 40_320
    ensures Allowed(d, SetVotingPeriod(sender, n)) <==> sender == d.admin && 5_760 <= n <= 80_640
    ensures Allowed(d, SetProposalThresholdBPS(sender, n)) <==> sender == d.admin && 1 <= n <= 1_000
    ensures Allowed(d, SetQuorumVotesBPS(sender, n)) <==> sender == d.admin && 200 <= n <= 2_000
    ensures Allowed(d, SetDelay(n)) <==> 2 * 24 * 60 * 60 <= n <= 30 * 24 * 60 * 60
  {
    hide Inv;
  }

  // --------------------------------------------------------- what was proposed

  /** Every proposal is as it was made: the same proposer and actions, votes taken
      for the voting period of then, after the voting delay of then, and quorum
      and threshold the shares of the supply of then. */
  lemma AsProposed(d: Dao, id: nat)
    requires Inv(d) && 1 <= id <= d.proposalCount
    ensures id in d.terms && var p, t := d.P(id), d.terms[id];
      && p.id == id && t.call == Propose(p.proposer, p.targets, p.values, p.signatures, p.calldatas)
      && id in d.created && t.block == d.created[id] && t.block <= d.block
      && p.startBlock == t.block + t.delay && p.endBlock == t.block + t.delay + t.period
      && 1 <= t.delay <= 40_320 && 5_760 <= t.period <= 80_640
      && 1 <= t.thresholdBPS <= 1_000 && 200 <= t.quorumBPS <= 2_000
      && 10000 * p.quorumVotes <= t.quorumBPS * t.supply < 10000 * (p.quorumVotes + 1)
      && 10000 * p.proposalThreshold <= t.thresholdBPS * t.supply < 10000 * (p.proposalThreshold + 1)
  {
    hide OnlyLatestOpen, LatestOwned, QueueOwned, GoodTally, GoodReceipts;
    GoodParts(d, id);
  }

  /** The terms of a proposal never change. */
  lemma {:induction false} TermsKept(d: Dao, steps: seq<Step>, id: nat)
    requires Inv(d) && 1 <= id <= d.proposalCount
    ensures var r := Run(d, steps);
      id <= r.proposalCount && id in d.terms && id in r.terms && r.terms[id] == d.terms[id]
  {
    hide Inv, Next;
    AsProposed(d, id);
    if steps != [] {
      var front := steps[..|steps| - 1];
      TermsKept(d, front, id);
      NextTerms(Run(d, front), steps[|steps| - 1], id);
    }
  }

  lemma NextTerms(d: Dao, s: Step, id: nat)
    requires Inv(d) && 1 <= id <= d.proposalCount && id in d.terms
    ensures var r := Next(d, s); id <= r.proposalCount && id in r.terms && r.terms[id] == d.terms[id]
  {
    hide Steady, Allowed, Apply;
    if Allowed(d, s) {
      StepChange(d, s, id);
      StepDomain(d, s);
    }
  }

  /** A proposal just made has the terms of the state it was made in. */
  lemma TermsOfNew(d: Dao, s: Step)
    requires Inv(d) && s.Propose? && Allowed(d, s)
    ensures var d', id := Apply(d, s), d.proposalCount + 1;
      id == d'.proposalCount && id in d'.terms &&
      d'.terms[id] == Terms(s, d.block, d.ledger.Supply(), d.votingDelay, d.votingPeriod,
                            d.proposalThresholdBPS, d.quorumVotesBPS)
  {
    hide Inv;
  }

  // ------------------------------------------------------------ who can stop one

  /** History only grows. */
  lemma {:induction false} RunHistory(d: Dao, steps: seq<Step>)
    requires Inv(d)
    ensures var r := Run(d, steps);
      && |r.history| == r.block && |d.history| == d.block <= r.block && r.history[..d.block] == d.history
      && r.proposalCount >= d.proposalCount && r.vetoer == d.vetoer
  {
    hide Inv, Next;
    InvSteady(d);
    if steps != [] {
      var front := steps[..|steps| - 1];
      RunHistory(d, front);
      NextHistory(Run(d, front), steps[|steps| - 1]);
    }
  }

  lemma NextHistory(d: Dao, s: Step)
    requires Inv(d)
    ensures var r := Next(d, s);
      && |r.history| == r.block && |d.history| == d.block <= r.block && r.history[..d.block] == d.history
      && r.proposalCount >= d.proposalCount && r.vetoer == d.vetoer
  {
    hide Allowed, Apply;
    if Allowed(d, s) {
      StepInv(d, s);
      StepHistory(d, s);
      StepDomain(d, s);
      SameVetoer(d, s);
    }
  }

  lemma SameVetoer(d: Dao, s: Step)
    requires Steady(d) && Allowed(d, s)
    ensures Apply(d, s).vetoer == d.vetoer && Apply(d, s).block >= d.block
  {
  }

  /** The proposer had the threshold's votes at the end of every block from the last
      one of `d` to the last one of `r`. */
  ghost predicate Backed(d: Dao, r: Dao, id: nat) {
    forall b: nat :: d.block - 1 <= b < |r.history| ==>
      r.history[b].Votes(d.P(id).proposer) >= d.P(id).proposalThreshold
  }

  /** Nobody but the proposer can cancel a proposal whose proposer keeps the
      threshold's votes. */
  lemma {:induction false} BackedNotCanceled(d: Dao, steps: seq<Step>, id: nat)
    requires Inv(d) && 1 <= id <= d.proposalCount && !d.P(id).canceled
    requires forall s :: s in steps ==> s != Cancel(d.P(id).proposer, id)
    requires Backed(d, Run(d, steps), id)
    ensures var r := Run(d, steps);
      && id <= r.proposalCount && !r.P(id).canceled
      && r.P(id).proposer == d.P(id).proposer && r.P(id).proposalThreshold == d.P(id).proposalThreshold
  {
    hide Inv, Next, Ledger.Votes;
    if steps != [] {
      var front, s := steps[..|steps| - 1], steps[|steps| - 1];
      var r := Run(d, front);
      assert s in steps && forall x :: x in front ==> x in steps;
      RunHistory(d, front);
      NextHistory(r, s);
      assert Backed(d, r, id) by {
        forall b: nat | d.block - 1 <= b < |r.history|
          ensures r.history[b].Votes(d.P(id).proposer) >= d.P(id).proposalThreshold
        {
          assert Next(r, s).history[..r.block][b] == r.history[b];
        }
      }
      BackedNotCanceled(d, front, id);
      NextNotCanceled(r, s, id);
    }
  }

  lemma NextNotCanceled(d: Dao, s: Step, id: nat)
    requires Inv(d) && 1 <= id <= d.proposalCount && !d.P(id).canceled && s != Cancel(d.P(id).proposer, id)
    requires |d.history| == d.block
    requires d.block > 0 ==> d.history[d.block - 1].Votes(d.P(id).proposer) >= d.P(id).proposalThreshold
    ensures var r := Next(d, s);
      && id <= r.proposalCount && !r.P(id).canceled
      && r.P(id).proposer == d.P(id).proposer && r.P(id).proposalThreshold == d.P(id).proposalThreshold
  {
    hide Steady, Apply, Allowed, Ledger.Votes;
    if Allowed(d, s) {
      if s.Cancel? && s.id == id { CancelAccepted(d, s.sender, id); }
      StepChange(d, s, id);
      StepDomain(d, s);
    }
  }

  /** Nobody but the vetoer can veto one. */
  lemma {:induction false} OnlyVetoerVetoes(d: Dao, steps: seq<Step>, id: nat)
    requires Inv(d) && 1 <= id <= d.proposalCount && !d.P(id).vetoed
    requires d.vetoer == ZERO || forall s :: s in steps ==> s != Veto(d.vetoer, id)
    ensures id <= Run(d, steps).proposalCount && !Run(d, steps).P(id).vetoed
  {
    hide Inv, Next;
    if steps != [] {
      var front, s := steps[..|steps| - 1], steps[|steps| - 1];
      assert s in steps && forall x :: x in front ==> x in steps;
      OnlyVetoerVetoes(d, front, id);
      RunHistory(d, front);
      NextNotVetoed(Run(d, front), s, id);
    }
  }

  lemma NextNotVetoed(d: Dao, s: Step, id: nat)
    requires Inv(d) && 1 <= id <= d.proposalCount && !d.P(id).vetoed && (d.vetoer == ZERO || s != Veto(d.vetoer, id))
    ensures id <= Next(d, s).proposalCount && !Next(d, s).P(id).vetoed
  {
    hide Steady, Apply, Allowed;
    if Allowed(d, s) {
      if s.Veto? && s.id == id { VetoAccepted(d, s.sender, id); }
      StepChange(d, s, id);
      StepDomain(d, s);
    }
  }
}
