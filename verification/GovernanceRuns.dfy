/** What the governor keeps along whole runs: the timelock queue, the weighing
    of votes, and the theorems about proposals. */
module GovernanceRuns {
  import opened Basics
  import opened Ledgers
  import opened Governance
  import opened GovernanceProofs

  // ------------------------------------------------------- the timelock queue

  predicate Removes(s: Step, id: nat) {
    (s.Execute? && s.id == id) || (s.Cancel? && s.id == id) || (s.Veto? && s.id == id)
  }

  lemma SameTxs(p: Proposal, q: Proposal)
    requires p.Arity() && q.Arity()
    requires p.targets == q.targets && p.values == q.values && p.signatures == q.signatures
             && p.calldatas == q.calldatas
    requires p.eta == q.eta
    ensures p.Txs() == q.Txs() && (p.Distinct() <==> q.Distinct())
  {
    assert forall i: nat :: i < |p.targets| ==> p.TxAt(i) == q.TxAt(i);
  }

  lemma StepQueue(d: Dao, s: Step)
    requires Steady(d) && Allowed(d, s) && Steady(Apply(d, s))
    ensures var d' := Apply(d, s);
      && (s.Queue? ==> s.id in d'.proposals && d'.P(s.id).Txs() !! d.queue && d'.P(s.id).Distinct()
                       && d'.queue == d.queue + d'.P(s.id).Txs())
      && (s.Execute? || s.Cancel? || s.Veto? ==> d'.queue == d.queue - d.P(s.id).Txs())
      && (!s.Queue? && !s.Execute? && !s.Cancel? && !s.Veto? ==> d'.queue == d.queue)
  {
  }

  /** Which proposals are live after a step: those that were and were not just
      executed, canceled or vetoed, with the same transactions, and a proposal
      that was just queued. */
  lemma StepLive(d: Dao, s: Step, id: nat)
    requires Steady(d) && Allowed(d, s) && Steady(Apply(d, s)) && GoodIds(d) && GoodSettings(d)
    requires id in d.proposals && (id > 0 ==> GoodPast(d, id))
    ensures var p, p' := d.P(id), Apply(d, s).P(id);
      && id in Apply(d, s).proposals
      && (Removes(s, id) ==> !p'.Live())
      && (s == Queue(id) ==> p'.Live() && !p.Live() && p'.eta != 0)
      && (!Removes(s, id) && s != Queue(id) ==>
            (p'.Live() <==> p.Live()) && p'.eta == p.eta && p'.Txs() == p.Txs() && (p'.Distinct() <==> p.Distinct()))
  {
    hide Steady, Allowed, Apply;
    StepChange(d, s, id);
    StepDomain(d, s);
    ArityIn(d, id);
    ArityIn(Apply(d, s), id);
    if !Removes(s, id) && s != Queue(id) { SameTxs(d.P(id), Apply(d, s).P(id)); }
  }

  lemma ArityIn(d: Dao, id: nat)
    requires Steady(d) && id in d.proposals
    ensures d.P(id).Arity()
  {
  }

  lemma NewNotLive(d: Dao, s: Step, id: nat)
    requires Steady(d) && Allowed(d, s) && GoodIds(d) && id in Apply(d, s).proposals && id !in d.proposals
    ensures !Apply(d, s).P(id).Live() && Apply(d, s).P(id).eta == 0
  {
  }

  /** Each pending transaction keeps an owner. */
  lemma StepQueueOwned(d: Dao, s: Step)
    requires Inv(d) && Allowed(d, s) && Steady(Apply(d, s))
    ensures QueueOwned(Apply(d, s))
  {
    hide Steady, Allowed, Apply, GoodProposal, OnlyLatestOpen, GoodIds;
    var d' := Apply(d, s);
    StepQueue(d, s);
    forall tx | tx in d'.queue
      ensures exists id :: id in d'.proposals && d'.proposals[id].Live() && tx in d'.proposals[id].Txs()
    {
      if tx in d.queue {
        var id :| id in d.proposals && d.proposals[id].Live() && tx in d.proposals[id].Txs();
        PastOf(d, id);
        StepLive(d, s, id);
      } else {
        QueueTarget(d, s);
        PastOf(d, s.id);
        StepLive(d, s, s.id);
      }
    }
  }

  lemma PastOf(d: Dao, id: nat)
    requires Inv(d) && id in d.proposals
    ensures id > 0 ==> GoodPast(d, id)
  {
    if id > 0 { assert GoodProposal(d, id); }
  }

  lemma QueueTarget(d: Dao, s: Step)
    requires Inv(d) && Allowed(d, s) && s.Queue?
    ensures s.id in d.proposals
  {
  }

  /** Every step keeps the invariant. */
  lemma StepInv(d: Dao, s: Step)
    requires Inv(d) && Allowed(d, s)
    ensures Inv(Apply(d, s))
  {
    hide Steady, Allowed, Apply, GoodProposal, OnlyLatestOpen, LatestOwned, QueueOwned, Sound, GoodSettings;
    var d' := Apply(d, s);
    StepSteady(d, s);
    StepSettings(d, s);
    StepIds(d, s);
    forall id: nat | 1 <= id <= d'.proposalCount ensures GoodProposal(d', id) {
      if id <= d.proposalCount { StepOldProposal(d, s, id); } else { StepNewProposal(d, s); }
    }
    StepOnlyLatestOpen(d, s);
    StepLatestOwned(d, s);
    StepQueueOwned(d, s);
  }

  // --------------------------------------------------------------------- runs

  /** A governor nobody has used yet. */
  ghost predicate Fresh(d: Dao) {
    && d.proposals == map[] && d.proposalCount == 0 && d.latestProposalIds == map[] && d.queue == {}
    && GoodSettings(d) && Steady(d) && Sound(d.ledger)
  }

  lemma FreshInv(d: Dao)
    requires Fresh(d)
    ensures Inv(d)
  {
  }

  /** The state after a sequence of steps; those that revert change nothing. */
  ghost function Run(d: Dao, steps: seq<Step>): (r: Dao)
    requires Inv(d)
    ensures Inv(r)
  {
    if steps == [] then d else Next(Run(d, steps[..|steps| - 1]), steps[|steps| - 1])
  }

  ghost function Next(d: Dao, s: Step): (r: Dao)
    requires Inv(d)
    ensures Inv(r)
  {
    if Allowed(d, s) then StepInv(d, s); Apply(d, s) else d
  }

  // ---------------------------------------------------------------- lifecycle

  lemma NextEdge(d: Dao, s: Step, id: nat)
    requires Inv(d) && 1 <= id <= d.proposalCount
    ensures id <= Next(d, s).proposalCount && Edge(d.State(id), Next(d, s).State(id))
  {
    hide Steady, Apply;
    if Allowed(d, s) {
      GoodParts(d, id);
      StepEdge(d, s, id);
      StepIds(d, s);
    }
  }

  /** Once executed or vetoed, a proposal stays so in every later state. */
  lemma {:induction false} Terminal(d: Dao, steps: seq<Step>, id: nat)
    requires Inv(d) && 1 <= id <= d.proposalCount
    requires d.State(id) == Executed || d.State(id) == Vetoed
    ensures id <= Run(d, steps).proposalCount && Run(d, steps).State(id) == d.State(id)
  {
    hide Inv, Next;
    if steps != [] {
      Terminal(d, steps[..|steps| - 1], id);
      NextEdge(Run(d, steps[..|steps| - 1]), steps[|steps| - 1], id);
    }
  }

  /** No proposal is queued twice: a proposal that is or was queued never
      succeeds again, whatever happens. */
  lemma {:induction false} NeverQueuedAgain(d: Dao, steps: seq<Step>, id: nat)
    requires Inv(d) && 1 <= id <= d.proposalCount
    requires d.State(id) !in {Pending, Active, Succeeded}
    ensures id <= Run(d, steps).proposalCount && Run(d, steps).State(id) !in {Pending, Active, Succeeded}
    ensures !Allowed(Run(d, steps), Queue(id))
  {
    hide Inv, Next, Steady;
    if steps != [] {
      NeverQueuedAgain(d, steps[..|steps| - 1], id);
      NextEdge(Run(d, steps[..|steps| - 1]), steps[|steps| - 1], id);
    }
  }

  /** Each proposer has at most one pending or active proposal. */
  lemma OneOpenProposal(d: Dao, p: nat, q: nat)
    requires Inv(d) && 1 <= p <= d.proposalCount && 1 <= q <= d.proposalCount
    requires d.Open(p) && d.Open(q) && d.P(p).proposer == d.P(q).proposer
    ensures p == q
  {
    hide Steady, GoodProposal;
  }

  lemma QuorumReached(votes: nat, quorum: nat, bps: nat, supply: nat)
    requires votes >= quorum && IsShare(quorum, bps, supply)
    ensures 10000 * (votes + 1) > bps * supply
  {
  }

  /** An executed proposal had finished voting with more votes for than against
      and at least the quorum, waited at least two days after it was queued, ran
      between its eta and fourteen days later, was never canceled or vetoed, and
      reports Executed. Its actions are those it was made with, and the votes for it
      reached the quorum's share of the supply at that time, rounded down. */
  lemma ExecutedProposal(d: Dao, id: nat)
    requires Inv(d) && 1 <= id <= d.proposalCount && d.P(id).executed
    ensures var p := d.P(id);
      && p.endBlock < d.block && p.forVotes > p.againstVotes && p.forVotes >= p.quorumVotes
      && id in d.queuedAt && id in d.executedAt
      && d.queuedAt[id] + 2 * DAY <= p.eta <= d.executedAt[id] < p.eta + 14 * DAY
      && d.executedAt[id] <= d.time
      && !p.canceled && !p.vetoed && d.State(id) == Executed
      && id in d.terms && var t := d.terms[id];
         && 200 <= t.quorumBPS <= 2000 && 10000 * (p.forVotes + 1) > t.quorumBPS * t.supply
         && t.block + t.delay + t.period < d.block
         && Propose(p.proposer, p.targets, p.values, p.signatures, p.calldatas) == t.call
  {
    hide OnlyLatestOpen, LatestOwned, QueueOwned, GoodTally, GoodReceipts;
    GoodParts(d, id);
    QuorumReached(d.P(id).forVotes, d.P(id).quorumVotes, d.terms[id].quorumBPS, d.terms[id].supply);
  }

  // --------------------------------------------------------- weighing of votes

  /** The proposal is pending or active. */
  predicate OpenNow(d: Dao, id: nat) {
    1 <= id <= d.proposalCount && d.Open(id)
  }

  /** While it is open, the proposal would be weighed at the block it was made in. */
  predicate WeighsCreation(d: Dao, id: nat) {
    OpenNow(d, id) ==> d.P(id).startBlock == At(d.created, id, 0) + d.votingDelay
  }

  /** The one step that can make an open proposal be weighed elsewhere. */
  predicate MovesDelay(d: Dao, s: Step) {
    s.SetVotingDelay? && s.blocks != d.votingDelay
  }

  lemma StepDelay(d: Dao, s: Step)
    requires Steady(d) && Allowed(d, s)
    ensures var d' := Apply(d, s);
      && d'.votingDelay == (if s.SetVotingDelay? then s.blocks else d.votingDelay)
      && (s.SetVotingDelay? ==> d' == d.(votingDelay := s.blocks))
      && (s.Propose? ==> var id := d.proposalCount + 1;
            id in d'.created && d'.P(id).startBlock == d'.created[id] + d'.votingDelay && d'.P(id).receipts == map[])
  {
  }

  /** A proposal goes on being weighed at its creation block exactly when the
      voting delay is not changed while this proposal is open. */
  lemma StepWeighsCreation(d: Dao, s: Step, id: nat)
    requires Inv(d) && Allowed(d, s) && WeighsCreation(d, id)
    ensures WeighsCreation(Apply(d, s), id) <==> (MovesDelay(d, s) ==> !OpenNow(d, id))
  {
    hide Steady, Allowed, Apply, GoodProposal, OnlyLatestOpen, QueueOwned, GoodIds;
    StepDelay(d, s);
    StepDomain(d, s);
    if 1 <= id <= d.proposalCount {
      StepEdgeInv(d, s, id);
      StepChange(d, s, id);
    }
  }

  lemma StepEdgeInv(d: Dao, s: Step, id: nat)
    requires Inv(d) && Allowed(d, s) && 1 <= id <= d.proposalCount
    ensures Edge(d.State(id), Apply(d, s).State(id))
  {
    hide Steady, Allowed, Apply;
    GoodParts(d, id);
    StepEdge(d, s, id);
  }

  /** Every receipt of the proposal was weighed at the end of its creation block. */
  predicate WeighedAtCreation(d: Dao, id: nat) {
    forall v :: v in d.P(id).receipts ==> At(d.castAt, (id, v), 0) == At(d.created, id, 0)
  }

  /** The receipts stay weighed at the creation block exactly when a vote on the
      proposal finds the delay at which the proposal was made. */
  lemma StepWeighed(d: Dao, s: Step, id: nat)
    requires Inv(d) && Allowed(d, s) && 1 <= id <= d.proposalCount && WeighedAtCreation(d, id)
    ensures WeighedAtCreation(Apply(d, s), id) <==>
            (s.CastVote? && s.id == id ==> d.P(id).startBlock == At(d.created, id, 0) + d.votingDelay)
  {
    hide Steady, Allowed, Apply, GoodProposal, OnlyLatestOpen, QueueOwned, GoodIds;
    StepDomain(d, s);
    StepChange(d, s, id);
    StepHistory(d, s);
    if s.CastVote? && s.id == id {
      assert s.voter in Apply(d, s).P(id).receipts;
    }
  }

  /** Along the run, the voting delay never changes while the proposal is open. */
  ghost predicate DelayKept(d: Dao, steps: seq<Step>, id: nat)
    requires Inv(d)
  {
    steps == [] ||
    (&& DelayKept(d, steps[..|steps| - 1], id)
     && var r := Run(d, steps[..|steps| - 1]);
        var s := steps[|steps| - 1];
        Allowed(r, s) && MovesDelay(r, s) ==> !OpenNow(r, id))
  }

  lemma {:induction false} RunWeighed(d: Dao, steps: seq<Step>, id: nat)
    requires Fresh(d) && Inv(d) && DelayKept(d, steps, id)
    ensures var r := Run(d, steps);
      WeighsCreation(r, id) && (1 <= id <= r.proposalCount ==> WeighedAtCreation(r, id))
  {
    hide Inv, WeighsCreation, WeighedAtCreation, OpenNow, MovesDelay;
    if steps == [] {
      FreshWeighed(d, id);
    } else {
      var front, s := steps[..|steps| - 1], steps[|steps| - 1];
      RunWeighed(d, front, id);
      NextWeighed(Run(d, front), s, id);
    }
  }

  lemma FreshWeighed(d: Dao, id: nat)
    requires Fresh(d)
    ensures WeighsCreation(d, id) && d.proposalCount == 0
  {
  }

  lemma NextWeighed(d: Dao, s: Step, id: nat)
    requires Inv(d) && WeighsCreation(d, id) && (1 <= id <= d.proposalCount ==> WeighedAtCreation(d, id))
    requires Allowed(d, s) && MovesDelay(d, s) ==> !OpenNow(d, id)
    ensures WeighsCreation(Next(d, s), id)
    ensures 1 <= id <= Next(d, s).proposalCount ==> WeighedAtCreation(Next(d, s), id)
  {
    hide MovesDelay, Steady, Allowed, Apply, GoodProposal, OnlyLatestOpen;
    if Allowed(d, s) {
      StepWeighsCreation(d, s, id);
      StepDomain(d, s);
      StepDelay(d, s);
      if 1 <= id <= d.proposalCount {
        StepWeighed(d, s, id);
        if s.CastVote? && s.id == id { StepChange(d, s, id); }
      }
    }
  }

  /** In every run in which the voting delay does not change while a proposal is
      open, the votes of that proposal never exceed the supply at the end of the
      block it was made in, whatever the token and other proposals do meanwhile. */
  lemma VotesWithinSupply(d0: Dao, steps: seq<Step>, id: nat)
    requires Fresh(d0) && Inv(d0) && DelayKept(d0, steps, id)
    requires 1 <= id <= Run(d0, steps).proposalCount
    ensures var d := Run(d0, steps);
      id in d.created && (d.created[id] < d.block ==>
        d.created[id] < |d.history| &&
        d.P(id).forVotes + d.P(id).againstVotes + d.P(id).abstainVotes <= d.history[d.created[id]].Supply())
  {
    hide Inv, WeighsCreation, WeighedAtCreation;
    RunWeighed(d0, steps, id);
    WeighedWithinSupply(Run(d0, steps), id);
  }

  lemma WeighedWithinSupply(d: Dao, id: nat)
    requires Inv(d) && 1 <= id <= d.proposalCount && WeighedAtCreation(d, id)
    ensures id in d.created && (d.created[id] < d.block ==>
      d.created[id] < |d.history| &&
      d.P(id).forVotes + d.P(id).againstVotes + d.P(id).abstainVotes <= d.history[d.created[id]].Supply())
  {
    hide OnlyLatestOpen, QueueOwned, GoodIds, GoodTally;
    GoodParts(d, id);
    if d.created[id] < d.block {
      TalliesWithinSupply(d, id, d.created[id]);
    }
  }

  // ------------------------------------------------- the queue along whole runs

  /** Every live proposal has all its (distinct) transactions pending. */
  ghost predicate AllPending(d: Dao) {
    forall id :: id in d.proposals && d.proposals[id].Live() ==> d.proposals[id].Txs() <= d.queue
  }

  /** No two live proposals share a transaction. */
  ghost predicate OneOwner(d: Dao) {
    forall p, q :: p in d.proposals && q in d.proposals && d.proposals[p].Live() && d.proposals[q].Live() && p != q ==>
      d.proposals[p].Txs() !! d.proposals[q].Txs()
  }

  predicate QueuedDistinct(d: Dao) {
    forall id :: id in d.proposals && d.proposals[id].Live() ==> d.proposals[id].Distinct()
  }

  /** Canceling or vetoing a proposal that was canceled or vetoed before. */
  predicate Repeats(d: Dao, s: Step) {
    (s.Cancel? && (d.P(s.id).canceled || d.P(s.id).vetoed)) || (s.Veto? && (d.P(s.id).canceled || d.P(s.id).vetoed))
  }

  /** Canceling or vetoing leaves every live proposal with all its transactions
      pending exactly when no other live proposal shares one with it. */
  lemma CancelKeepsPending(d: Dao, s: Step)
    requires Inv(d) && Allowed(d, s) && AllPending(d) && (s.Cancel? || s.Veto?)
    ensures AllPending(Apply(d, s)) <==>
            forall q :: q in d.proposals && q != s.id && d.proposals[q].Live() ==>
                d.proposals[q].Txs() !! d.P(s.id).Txs()
  {
    hide Steady, Allowed, Apply, GoodProposal, OnlyLatestOpen, QueueOwned;
    var d' := Apply(d, s);
    StepInv(d, s);
    StepQueue(d, s);
    StepDomain(d, s);
    forall q | q in d.proposals && q != s.id
      ensures q in d'.proposals && (d'.proposals[q].Live() <==> d.proposals[q].Live())
              && d'.proposals[q].Txs() == d.proposals[q].Txs()
    {
      PastOf(d, q);
      StepLive(d, s, q);
    }
    if s.id in d.proposals { PastOf(d, s.id); StepLive(d, s, s.id); } else { TargetNotLive(d, s); }
    SplitPending(d, d', s.id);
  }

  lemma TargetNotLive(d: Dao, s: Step)
    requires Steady(d) && Allowed(d, s) && (s.Cancel? || s.Veto?)
    ensures s.id in Apply(d, s).proposals ==> !Apply(d, s).P(s.id).Live()
  {
  }

  lemma SplitPending(d: Dao, d': Dao, id: nat)
    requires AllPending(d) && d'.queue == d.queue - d.P(id).Txs()
    requires id in d'.proposals ==> !d'.proposals[id].Live()
    requires forall q :: q in d'.proposals ==> q in d.proposals || q == id
    requires forall q :: q in d.proposals && q != id ==>
               q in d'.proposals && (d'.proposals[q].Live() <==> d.proposals[q].Live())
               && d'.proposals[q].Txs() == d.proposals[q].Txs()
    ensures AllPending(d') <==>
            forall q :: q in d.proposals && q != id && d.proposals[q].Live() ==> d.proposals[q].Txs() !! d.P(id).Txs()
  {
    hide Proposal.Live, Proposal.Txs;
    if AllPending(d') {
      forall q | q in d.proposals && q != id && d.proposals[q].Live() ensures d.proposals[q].Txs() !! d.P(id).Txs() {
        assert d'.proposals[q].Txs() <= d'.queue;
      }
    }
  }

  /** When the canceled or vetoed proposal is canceled or vetoed for the first
      time, nothing is shared: it takes a repetition to strip another proposal. */
  lemma FirstCancelSharesNothing(d: Dao, s: Step)
    requires Inv(d) && Allowed(d, s) && OneOwner(d) && (s.Cancel? || s.Veto?) && !Repeats(d, s)
    ensures forall q :: q in d.proposals && q != s.id && d.proposals[q].Live() ==>
            d.proposals[q].Txs() !! d.P(s.id).Txs()
  {
    hide OnlyLatestOpen, QueueOwned, Apply, GoodTally, GoodReceipts;
    if s.id > 0 { GoodParts(d, s.id); }
    forall q | q in d.proposals && q != s.id && d.proposals[q].Live() ensures d.proposals[q].Txs() !! d.P(s.id).Txs() {
      if !d.P(s.id).Live() { assert d.P(s.id).eta == 0; }
    }
  }

  lemma StepPending(d: Dao, s: Step)
    requires Inv(d) && Allowed(d, s) && !Repeats(d, s) && AllPending(d) && OneOwner(d)
    ensures AllPending(Apply(d, s))
  {
    hide Steady, Allowed, Apply, GoodProposal, OnlyLatestOpen, QueueOwned, GoodIds;
    if s.Cancel? || s.Veto? {
      CancelKeepsPending(d, s);
      FirstCancelSharesNothing(d, s);
    } else {
      var d' := Apply(d, s);
      StepInv(d, s);
      StepQueue(d, s);
      forall q | q in d'.proposals && d'.proposals[q].Live() ensures d'.proposals[q].Txs() <= d'.queue {
        LiveBefore(d, s, q);
        if s.Execute? { assert d.P(q).Txs() !! d.P(s.id).Txs() by { ExecutedWasLive(d, s); } }
      }
    }
  }

  lemma ExecutedWasLive(d: Dao, s: Step)
    requires Inv(d) && Allowed(d, s) && s.Execute?
    ensures s.id in d.proposals && d.P(s.id).Live()
  {
    if s.id > 0 { GoodParts(d, s.id); }
  }

  /** A proposal live after a step was live before with the same transactions,
      or was queued by this step. */
  lemma LiveBefore(d: Dao, s: Step, q: nat)
    requires Inv(d) && Allowed(d, s) && Steady(Apply(d, s)) && q in Apply(d, s).proposals && Apply(d, s).P(q).Live()
    ensures s == Queue(q) ||
            (q in d.proposals && d.P(q).Live() && d.P(q).Txs() == Apply(d, s).P(q).Txs() && !Removes(s, q)
             && (d.P(q).Distinct() <==> Apply(d, s).P(q).Distinct()))
  {
    hide Steady, Allowed, Apply, GoodProposal, OnlyLatestOpen, QueueOwned;
    if q in d.proposals {
      PastOf(d, q);
      StepLive(d, s, q);
    } else {
      NewNotLive(d, s, q);
    }
  }

  lemma StepOneOwner(d: Dao, s: Step)
    requires Inv(d) && Allowed(d, s) && AllPending(d) && OneOwner(d)
    ensures OneOwner(Apply(d, s))
  {
    hide Steady, Allowed, Apply, GoodProposal, OnlyLatestOpen, QueueOwned, GoodIds, Proposal.Live, Proposal.Txs;
    var d' := Apply(d, s);
    StepInv(d, s);
    StepQueue(d, s);
    forall p, q | p in d'.proposals && q in d'.proposals && d'.proposals[p].Live() && d'.proposals[q].Live() && p != q
      ensures d'.proposals[p].Txs() !! d'.proposals[q].Txs()
    {
      LiveBefore(d, s, p);
      LiveBefore(d, s, q);
    }
  }

  lemma StepDistinct(d: Dao, s: Step)
    requires Inv(d) && Allowed(d, s) && QueuedDistinct(d)
    ensures QueuedDistinct(Apply(d, s))
  {
    hide Steady, Allowed, Apply, GoodProposal, OnlyLatestOpen, QueueOwned, GoodIds, Proposal.Live, Proposal.Txs;
    var d' := Apply(d, s);
    StepInv(d, s);
    StepQueue(d, s);
    forall q | q in d'.proposals && d'.proposals[q].Live() ensures d'.proposals[q].Distinct() {
      LiveBefore(d, s, q);
    }
  }

  // ------------------------------------------------- what a repetition can do

  /** A proposal with one action, passed by the vote of account 1 and queued. */
  function Twin(id: nat, proposer: Address, canceled: bool): Proposal {
    Voted(Proposal(id, proposer, 0, 0, 2 * DAY, [7], [0], [""], [""], 2, 5762, 0, 0, 0,
                   canceled, false, false, map[]), 1, 1, 1)
  }

  function TwinTerms(proposer: Address): Terms {
    Terms(Propose(proposer, [7], [0], [""], [""]), 1, 2, 1, 5760, 1, 200)
  }

  /** Accounts 1 and 3 own a word each. */
  const TWO_OWNERS := Ledger(map[0 := 1, 1 := 3], map[], map[])

  /** Proposals 1 and 2 have the same action. Proposal 1 was queued and canceled,
      then proposal 2 was queued at the same time. */
  ghost function Twins(): Dao {
    Dao(map[1 := Twin(1, 1, true), 2 := Twin(2, 3, false)], 2, map[1 := 1, 3 := 2], 1, 5760, 1, 200, 1, ZERO,
        2 * DAY, {Tx(7, 0, "", "", 2 * DAY)}, 5763, 0, TWO_OWNERS, seq(5763, _ => TWO_OWNERS),
        map[1 := 1, 2 := 1], map[(1, 1) := 1, (2, 1) := 1], map[1 := TwinTerms(1), 2 := TwinTerms(3)],
        map[1 := 0, 2 := 0], map[])
  }

  lemma TwoOwnersSound()
    ensures Sound(TWO_OWNERS) && TWO_OWNERS.Votes(1) == 1
  {
    assert TWO_OWNERS.Backing(1) == {0};
  }

  lemma TwinGood(id: nat)
    requires id == 1 || id == 2
    ensures GoodProposal(Twins(), id)
  {
    hide GoodTally, GoodReceipts, GoodPast, GoodShape, GoodTerms, Twins, Twin;
    TwinPast(id);
    TwinTally(id, Twins().P(id).proposer, id == 1);
    TwinReceipts(id);
  }

  lemma TwinPast(id: nat)
    requires id == 1 || id == 2
    ensures Twins().P(id) == Twin(id, Twins().P(id).proposer, id == 1)
    ensures GoodShape(Twins().P(id)) && GoodPast(Twins(), id) && GoodTerms(Twins(), id)
  {
  }

  lemma TwinTally(id: nat, proposer: Address, canceled: bool)
    ensures GoodTally(Twin(id, proposer, canceled))
  {
    hide Tally;
    var q := Twin(id, proposer, canceled).(forVotes := 0, receipts := map[]);
    NoVotesYet(q);
    VotedTally(q, 1, 1, 1);
  }

  lemma TwinReceipts(id: nat)
    requires id == 1 || id == 2
    ensures GoodReceipts(Twins(), id)
  {
    hide Ledger.Votes;
    TwoOwnersSound();
  }

  lemma TwinsInv()
    ensures Inv(Twins())
  {
    hide *;
    TwinGood(1);
    TwinGood(2);
    TwinsSteady();
    TwinsIds();
    TwinsLatest();
    TwinsOwned();
    InvWhole(Twins());
  }

  lemma InvWhole(d: Dao)
    requires Steady(d) && Sound(d.ledger) && GoodSettings(d) && GoodIds(d)
    requires OnlyLatestOpen(d) && LatestOwned(d) && QueueOwned(d)
    requires d.proposalCount == 2 && GoodProposal(d, 1) && GoodProposal(d, 2)
    ensures Inv(d)
  {
    hide Steady, Sound, GoodSettings, GoodIds, OnlyLatestOpen, LatestOwned, QueueOwned, GoodProposal;
  }

  lemma TwinsSteady()
    ensures Steady(Twins()) && Sound(Twins().ledger) && GoodSettings(Twins())
  {
    hide Sound;
    TwoOwnersSound();
  }

  lemma TwinsIds()
    ensures Twins().proposalCount == 2 && GoodIds(Twins())
  {
    hide Twin;
  }

  /** Proposal 1 is canceled and proposal 2 queued, so neither is open. */
  lemma TwinsLatest()
    ensures OnlyLatestOpen(Twins()) && LatestOwned(Twins())
  {
    hide Twin;
    assert Twins().P(1).proposer == 1 && Twins().P(2).proposer == 3 by { TwinPast(1); TwinPast(2); }
    assert Twins().State(1) == Canceled && Twins().State(2) == Queued by { TwinStates(); }
  }

  lemma TwinStates()
    ensures Twins().State(1) == Canceled && Twins().State(2) == Queued
  {
  }

  lemma TwinsOwned()
    ensures QueueOwned(Twins())
  {
    hide Proposal.Txs;
    TwinTxs(Twins().P(2));
    assert Twins().proposals[2].Live();
  }

  lemma TwinTxs(p: Proposal)
    requires p == Twin(p.id, p.proposer, p.canceled)
    ensures p.Arity() && p.Txs() == {Tx(7, 0, "", "", 2 * DAY)} && p.Distinct()
  {
    assert p.TxAt(0) == Tx(7, 0, "", "", 2 * DAY) && p.TxAt(0) in p.Txs();
  }

  lemma TwinsPending()
    ensures AllPending(Twins()) && OneOwner(Twins()) && QueuedDistinct(Twins())
  {
    hide Proposal.Txs, Proposal.Distinct;
    TwinTxs(Twins().P(2));
  }

  lemma TwinsCancel()
    requires Steady(Twins())
    ensures var d, s := Twins(), Cancel(1, 1);
      Allowed(d, s) && Repeats(d, s) && Apply(d, s).P(2) == d.P(2) && Apply(d, s).block == d.block
      && Apply(d, s).queue == {}
  {
    hide Proposal.Txs, Proposal.Distinct, Steady;
    TwinTxs(Twins().P(1));
  }

  /** A repetition does strip another proposal: canceling proposal 1 a second time
      takes the transaction of proposal 2 out of the timelock. */
  lemma RepeatStripsTwin() returns (d: Dao, s: Step)
    ensures Inv(d) && AllPending(d) && OneOwner(d) && QueuedDistinct(d)
    ensures Steady(d) && Allowed(d, s) && Repeats(d, s)
    ensures s.Cancel? && s.id == 1 && Apply(d, s).P(2).Live() && !AllPending(Apply(d, s))
  {
    hide *;
    d, s := Twins(), Cancel(1, 1);
    TwinsInv();
    InvSteady(d);
    TwinsPending();
    TwinsCancel();
    TwinLive();
    NothingPending(Apply(d, s));
  }

  lemma TwinLive()
    ensures Twins().P(2).Live() && Twins().P(2).Txs() != {}
  {
    TwinTxs(Twins().P(2));
  }

  lemma NothingPending(d: Dao)
    requires d.P(2).Live() && d.P(2).Txs() != {} && d.queue == {}
    ensures !AllPending(d)
  {
    hide Proposal.Txs;
    assert 2 in d.proposals;
  }

  lemma InvSteady(d: Dao)
    requires Inv(d)
    ensures Steady(d)
  {
  }

  /** Along the run, no proposal is canceled or vetoed a second time. */
  ghost predicate NoRepeats(d: Dao, steps: seq<Step>)
    requires Inv(d)
  {
    steps == [] ||
    (&& NoRepeats(d, steps[..|steps| - 1])
     && var r := Run(d, steps[..|steps| - 1]);
        var s := steps[|steps| - 1];
        Allowed(r, s) ==> !Repeats(r, s))
  }

  /** In every run that cancels or vetoes no proposal twice, every queued
      proposal has all its actions pending and owns them alone. */
  lemma {:induction false} RunPending(d: Dao, steps: seq<Step>)
    requires Fresh(d) && Inv(d) && NoRepeats(d, steps)
    ensures AllPending(Run(d, steps)) && OneOwner(Run(d, steps)) && QueuedDistinct(Run(d, steps))
  {
    hide Inv, AllPending, OneOwner, QueuedDistinct, Repeats;
    if steps == [] {
      FreshPending(d);
    } else {
      var front, s := steps[..|steps| - 1], steps[|steps| - 1];
      RunPending(d, front);
      NextPending(Run(d, front), s);
    }
  }

  lemma FreshPending(d: Dao)
    requires Fresh(d)
    ensures AllPending(d) && OneOwner(d) && QueuedDistinct(d)
  {
  }

  lemma NextPending(d: Dao, s: Step)
    requires Inv(d) && AllPending(d) && OneOwner(d) && QueuedDistinct(d) && (Allowed(d, s) ==> !Repeats(d, s))
    ensures AllPending(Next(d, s)) && OneOwner(Next(d, s)) && QueuedDistinct(Next(d, s))
  {
    hide AllPending, OneOwner, QueuedDistinct, Repeats, Steady, Allowed, Apply;
    if Allowed(d, s) {
      StepPending(d, s);
      StepOneOwner(d, s);
      StepDistinct(d, s);
    }
  }

  /** The timelock never refuses a queued proposal as unqueued or stale: in such
      runs executing it succeeds exactly when its eta has come and no target
      call fails. */
  lemma ExecuteSucceeds(d: Dao, id: nat, failing: set<nat>)
    requires Inv(d) && AllPending(d) && QueuedDistinct(d) && 1 <= id <= d.proposalCount && d.State(id) == Queued
    ensures Allowed(d, Execute(id, failing)) <==>
            d.P(id).eta <= d.time && forall i: nat :: i < |d.P(id).targets| ==> i !in failing
  {
    hide OnlyLatestOpen, QueueOwned, GoodTally, GoodReceipts;
    GoodParts(d, id);
    assert d.proposals[id].Live();
  }
}
