/** What every step of the governor keeps. */
module GovernanceProofs {
  import opened Basics
  import opened Ledgers
  import opened Governance

  // ------------------------------------------------------- effect on a proposal

  /** What a step can do to one existing proposal. */
  ghost predicate Change(d: Dao, s: Step, id: nat, d': Dao)
    requires Steady(d)
  {
    var p, p' := d.P(id), d'.P(id);
    && (s.NextBlock? ==> d'.block == d.block + 1 && d'.time >= d.time && p' == p)
    && (!s.NextBlock? ==> d'.block == d.block && d'.time == d.time)
    && (s.Queue? && s.id == id ==>
          && d.State(id) == Succeeded && p' == p.(eta := d.time + d.delay)
          && d'.queuedAt == d.queuedAt[id := d.time] && d'.executedAt == d.executedAt)
    && (s.Execute? && s.id == id ==>
          && d.State(id) == Queued && p' == p.(executed := true)
          && (p.targets != [] ==> p.eta <= d.time <= p.eta + GRACE_PERIOD)
          && d'.queuedAt == d.queuedAt && d'.executedAt == d.executedAt[id := d.time])
    && (s.Cancel? && s.id == id ==> d.State(id) != Executed && p' == p.(canceled := true))
    && (s.Veto? && s.id == id ==> d.State(id) != Executed && p' == p.(vetoed := true))
    && (s.CastVote? && s.id == id ==> Cast(d, s, d'))
    && ((s.Cancel? || s.Veto? || s.CastVote?) && s.id == id ==>
          d'.queuedAt == d.queuedAt && d'.executedAt == d.executedAt)
    && (!Targets(s, id) ==>
          && p' == p
          && At(d'.queuedAt, id, 0) == At(d.queuedAt, id, 0) && (id in d.queuedAt ==> id in d'.queuedAt)
          && At(d'.executedAt, id, 0) == At(d.executedAt, id, 0) && (id in d.executedAt ==> id in d'.executedAt))
    && At(d'.created, id, 0) == At(d.created, id, 0) && (id in d.created ==> id in d'.created)
    && (id in d.terms ==> id in d'.terms && d'.terms[id] == d.terms[id])
  }

  predicate Targets(s: Step, id: nat) {
    match s
    case Queue(i) => i == id
    case Execute(i, _) => i == id
    case Cancel(_, i) => i == id
    case Veto(_, i) => i == id
    case CastVote(_, i, _) => i == id
    case _ => false
  }

  /** The effect of a vote: the weight is that of the voter at the end of the
      block `votingDelay` before voting started. */
  ghost predicate Cast(d: Dao, s: Step, d': Dao)
    requires Steady(d) && s.CastVote?
  {
    var p := d.P(s.id);
    var b := p.startBlock - d.votingDelay;
    && d.State(s.id) == Active && s.support <= 2 && !At(p.receipts, s.voter, NO_RECEIPT).hasVoted
    && 0 <= b < |d.history| && d.history[b].Votes(s.voter) >= 0
    && d'.P(s.id) == Voted(p, s.voter, s.support, d.history[b].Votes(s.voter))
    && d'.castAt == d.castAt[(s.id, s.voter) := b]
  }

  lemma StepChange(d: Dao, s: Step, id: nat)
    requires Steady(d) && Allowed(d, s) && id <= d.proposalCount
    ensures Change(d, s, id, Apply(d, s))
  {
    if !Targets(s, id) {
      StepOther(d, s, id);
    } else if s.CastVote? {
      StepCast(d, s);
    } else {
      StepTarget(d, s);
    }
  }

  lemma StepOther(d: Dao, s: Step, id: nat)
    requires Steady(d) && Allowed(d, s) && id <= d.proposalCount && !Targets(s, id)
    ensures Change(d, s, id, Apply(d, s))
  {
    assert Apply(d, s).P(id) == d.P(id);
  }

  lemma StepCast(d: Dao, s: Step)
    requires Steady(d) && Allowed(d, s) && s.CastVote?
    ensures Cast(d, s, Apply(d, s))
  {
    var b := d.P(s.id).startBlock - d.votingDelay;
    assert Sound(d.history[b]);
  }

  lemma StepTarget(d: Dao, s: Step)
    requires Steady(d) && Allowed(d, s) && (s.Queue? || s.Execute? || s.Cancel? || s.Veto?)
    ensures Change(d, s, s.id, Apply(d, s))
  {
  }

  // --------------------------------------------------------------- lifecycle

  /** The moves between states that one step can make. */
  predicate Edge(s: ProposalState, t: ProposalState) {
    || s == t
    || (s == Pending && t == Active)
    || (s == Active && (t == Defeated || t == Succeeded))
    || (s == Succeeded && t == Queued)
    || (s == Queued && (t == Executed || t == Expired))
    || (s != Executed && s != Vetoed && t == Canceled)
    || (s != Executed && t == Vetoed)
  }

  lemma StepEdge(d: Dao, s: Step, id: nat)
    requires Steady(d) && Allowed(d, s) && 1 <= id <= d.proposalCount
    requires GoodSettings(d) && GoodShape(d.P(id)) && GoodPast(d, id)
    ensures Edge(d.State(id), Apply(d, s).State(id))
  {
    hide Steady, Allowed, Apply;
    StepChange(d, s, id);
  }

  // ------------------------------------------------------------------ tallies

  lemma TallyAdd(receipts: map<Address, Receipt>, voter: Address, r: Receipt, support: nat)
    requires voter !in receipts
    ensures Tally(receipts[voter := r], support)
            == Tally(receipts, support) + (if r.support == support then r.votes else 0)
  {
    hide Sum;
    var after := receipts[voter := r];
    var f, g := BallotsFor(receipts, support), BallotsFor(after, support);
    forall v | v in receipts.Keys ensures f(v) == g(v) {}
    SumChange(receipts.Keys, f, g, voter);
    assert after.Keys == receipts.Keys + {voter};
  }

  lemma VotedTally(p: Proposal, voter: Address, support: nat, votes: nat)
    requires GoodTally(p) && support <= 2
    requires !At(p.receipts, voter, NO_RECEIPT).hasVoted
    ensures GoodTally(Voted(p, voter, support, votes))
  {
    hide Tally;
    var r := Receipt(true, support, votes);
    TallyAdd(p.receipts, voter, r, 0);
    TallyAdd(p.receipts, voter, r, 1);
    TallyAdd(p.receipts, voter, r, 2);
  }

  /** The three tallies together are the votes of all receipts. */
  lemma TalliesAddUp(p: Proposal)
    requires GoodTally(p)
    ensures p.forVotes + p.againstVotes + p.abstainVotes == Sum(p.receipts.Keys, Ballots(p.receipts))
  {
    hide Sum;
    var f0, f1, f2 := BallotsFor(p.receipts, 0), BallotsFor(p.receipts, 1), BallotsFor(p.receipts, 2);
    forall v | v in p.receipts.Keys ensures Ballots(p.receipts)(v) == f0(v) + f1(v) + f2(v) {}
    SumOfThree(p.receipts.Keys, f0, f1, f2, Ballots(p.receipts));
  }

  /** If every receipt was weighed at the end of block `b`, the three tallies
      together never exceed the supply at the end of that block. */
  lemma TalliesWithinSupply(d: Dao, id: nat, b: nat)
    requires GoodTally(d.P(id)) && GoodReceipts(d, id) && b < |d.history|
    requires forall v :: v in d.P(id).receipts ==> d.castAt[(id, v)] == b
    ensures d.P(id).forVotes + d.P(id).againstVotes + d.P(id).abstainVotes <= d.history[b].Supply()
  {
    hide Sum, GoodTally;
    var p := d.P(id);
    TalliesAddUp(p);
    assert Sum(p.receipts.Keys, Ballots(p.receipts)) == Sum(p.receipts.Keys, VotesOf(d.history[b])) by {
      forall v | v in p.receipts.Keys ensures Ballots(p.receipts)(v) == VotesOf(d.history[b])(v) {}
      SumSame(p.receipts.Keys, Ballots(p.receipts), VotesOf(d.history[b]));
    }
    VotesAtMostSupply(d.history[b], p.receipts.Keys);
  }

  // ------------------------------------------------------- one step, one proposal

  lemma StepOldProposal(d: Dao, s: Step, id: nat)
    requires Steady(d) && Allowed(d, s) && GoodSettings(d) && 1 <= id <= d.proposalCount && GoodProposal(d, id)
    ensures GoodProposal(Apply(d, s), id)
  {
    hide Steady, Allowed, Apply, GoodTally, GoodReceipts, GoodProposal, GoodTerms;
    GoodParts(d, id);
    StepTerms(d, s, id);
    var d' := Apply(d, s);
    StepChange(d, s, id);
    StepReceipts(d, s, id);
    if s.CastVote? && s.id == id {
      VotedTally(d.P(id), s.voter, s.support, d.history[d.P(id).startBlock - d.votingDelay].Votes(s.voter));
    } else {
      SameTally(d.P(id), d'.P(id));
    }
    GoodWhole(d', id);
  }

  lemma GoodParts(d: Dao, id: nat)
    requires GoodProposal(d, id)
    ensures GoodShape(d.P(id)) && GoodPast(d, id) && GoodTally(d.P(id)) && GoodReceipts(d, id) && GoodTerms(d, id)
  {
  }

  lemma GoodWhole(d: Dao, id: nat)
    requires GoodShape(d.P(id)) && GoodPast(d, id) && GoodTally(d.P(id)) && GoodReceipts(d, id) && GoodTerms(d, id)
    ensures GoodProposal(d, id)
  {
  }

  lemma StepTerms(d: Dao, s: Step, id: nat)
    requires Steady(d) && Allowed(d, s) && id <= d.proposalCount && GoodTerms(d, id)
    ensures GoodTerms(Apply(d, s), id)
  {
    hide Steady, Allowed, Apply, IsShare;
    StepChange(d, s, id);
  }

  lemma SameTally(p: Proposal, q: Proposal)
    requires GoodTally(p) && p.receipts == q.receipts
    requires p.forVotes == q.forVotes && p.againstVotes == q.againstVotes && p.abstainVotes == q.abstainVotes
    ensures GoodTally(q)
  {
    hide Tally;
  }

  lemma StepReceipts(d: Dao, s: Step, id: nat)
    requires Steady(d) && Allowed(d, s) && id <= d.proposalCount && GoodReceipts(d, id)
    ensures GoodReceipts(Apply(d, s), id)
  {
    hide Steady, Allowed, Apply;
    StepChange(d, s, id);
    StepHistory(d, s);
  }

  /** Past ledgers and past weighing blocks are never rewritten. */
  lemma StepHistory(d: Dao, s: Step)
    requires Steady(d) && Allowed(d, s)
    ensures var d' := Apply(d, s);
      && |d.history| <= |d'.history| && d'.history[..|d.history|] == d.history
      && (s.CastVote? ==> d'.castAt == d.castAt[(s.id, s.voter) := d.P(s.id).startBlock - d.votingDelay])
      && (!s.CastVote? ==> d'.castAt == d.castAt)
  {
  }

  lemma StepNewProposal(d: Dao, s: Step)
    requires Steady(d) && Allowed(d, s) && GoodSettings(d) && s.Propose?
    ensures GoodProposal(Apply(d, s), d.proposalCount + 1)
  {
    hide *;
    NewShape(d, s);
    NewTally(d, s);
    NewTerms(d, s);
    GoodWhole(Apply(d, s), d.proposalCount + 1);
  }

  lemma NewShape(d: Dao, s: Step)
    requires Steady(d) && Allowed(d, s) && GoodSettings(d) && s.Propose?
    ensures var d', id := Apply(d, s), d.proposalCount + 1;
      GoodShape(d'.P(id)) && GoodPast(d', id)
  {
    hide Bps2Uint;
  }

  lemma NewTally(d: Dao, s: Step)
    requires Steady(d) && Allowed(d, s) && s.Propose?
    ensures var d', id := Apply(d, s), d.proposalCount + 1;
      GoodTally(d'.P(id)) && GoodReceipts(d', id)
  {
    hide Apply, Allowed, Tally, Ledger.Votes;
    NewUnvoted(d, s);
    NoVotesYet(Apply(d, s).P(d.proposalCount + 1));
  }

  lemma NewUnvoted(d: Dao, s: Step)
    requires Steady(d) && Allowed(d, s) && s.Propose?
    ensures var p := Apply(d, s).P(d.proposalCount + 1);
      p.receipts == map[] && p.forVotes == p.againstVotes == p.abstainVotes == 0
  {
    hide Bps2Uint;
  }

  lemma NoVotesYet(p: Proposal)
    requires p.receipts == map[] && p.forVotes == p.againstVotes == p.abstainVotes == 0
    ensures GoodTally(p)
  {
    assert p.receipts.Keys == {};
  }

  /** Basis points round down. */
  lemma SharePart(bps: nat, supply: nat)
    ensures IsShare(Bps2Uint(bps, supply), bps, supply)
  {
  }

  lemma NewTerms(d: Dao, s: Step)
    requires Steady(d) && Allowed(d, s) && GoodSettings(d) && s.Propose?
    ensures GoodTerms(Apply(d, s), d.proposalCount + 1)
  {
    hide Bps2Uint, IsShare;
    SharePart(d.proposalThresholdBPS, d.ledger.Supply());
    SharePart(d.quorumVotesBPS, d.ledger.Supply());
  }

  // ----------------------------------------------------------- one step, the rest

  lemma StepSettings(d: Dao, s: Step)
    requires Steady(d) && Allowed(d, s) && GoodSettings(d) && Sound(d.ledger)
    ensures GoodSettings(Apply(d, s)) && Sound(Apply(d, s).ledger)
  {
    hide Sound;
  }

  lemma StepSteady(d: Dao, s: Step)
    requires Steady(d) && Allowed(d, s) && Sound(d.ledger)
    ensures Steady(Apply(d, s))
  {
    hide Sound;
  }

  lemma StepIds(d: Dao, s: Step)
    requires Steady(d) && Allowed(d, s) && GoodIds(d)
    ensures GoodIds(Apply(d, s))
    ensures Apply(d, s).proposalCount == d.proposalCount + if s.Propose? then 1 else 0
  {
    hide Steady, Allowed, Apply;
    StepChange(d, s, 0);
    StepDomain(d, s);
  }

  lemma StepDomain(d: Dao, s: Step)
    requires Steady(d) && Allowed(d, s)
    ensures var d' := Apply(d, s);
      && d'.proposalCount == d.proposalCount + (if s.Propose? then 1 else 0)
      && (s.Propose? ==> d'.proposals.Keys == d.proposals.Keys + {d'.proposalCount})
      && (forall id: nat :: id in d.proposals ==> id in d'.proposals)
      && (forall id: nat :: id in d'.proposals ==>
            id in d.proposals || (id <= d.proposalCount && Targets(s, id)) || s.Propose?)
  {
  }

  /** Only a proposer's latest proposal can be open, although proposing looks at
      no other. */
  lemma StepOnlyLatestOpen(d: Dao, s: Step)
    requires Steady(d) && Allowed(d, s) && GoodSettings(d) && OnlyLatestOpen(d)
    requires forall id: nat :: 1 <= id <= d.proposalCount ==> GoodProposal(d, id)
    ensures OnlyLatestOpen(Apply(d, s))
  {
    hide Steady, Allowed, Apply, GoodProposal;
    var d' := Apply(d, s);
    forall id: nat | 1 <= id <= d'.proposalCount && d'.Open(id)
      ensures At(d'.latestProposalIds, d'.P(id).proposer, 0) == id
    {
      if id <= d.proposalCount { StepLatest(d, s, id); } else { StepLatestNew(d, s); }
    }
  }

  lemma StepLatest(d: Dao, s: Step, id: nat)
    requires Steady(d) && Allowed(d, s) && GoodSettings(d) && 1 <= id <= d.proposalCount && GoodProposal(d, id)
    requires d.Open(id) ==> At(d.latestProposalIds, d.P(id).proposer, 0) == id
    requires Apply(d, s).Open(id)
    ensures At(Apply(d, s).latestProposalIds, Apply(d, s).P(id).proposer, 0) == id
  {
    hide Steady, Apply, GoodTally, GoodReceipts;
    StepEdge(d, s, id);
    StepChange(d, s, id);
    StepLatestIds(d, s);
  }

  lemma StepLatestIds(d: Dao, s: Step)
    requires Steady(d) && Allowed(d, s)
    ensures Apply(d, s).latestProposalIds ==
            if s.Propose? then d.latestProposalIds[s.proposer := d.proposalCount + 1] else d.latestProposalIds
  {
  }

  lemma StepLatestOwned(d: Dao, s: Step)
    requires Steady(d) && Allowed(d, s) && LatestOwned(d)
    ensures LatestOwned(Apply(d, s))
  {
    hide Steady, Allowed, Apply;
    var d' := Apply(d, s);
    StepLatestIds(d, s);
    StepDomain(d, s);
    forall a | a in d'.latestProposalIds && d'.latestProposalIds[a] != 0
      ensures d'.latestProposalIds[a] <= d'.proposalCount && d'.P(d'.latestProposalIds[a]).proposer == a
    {
      var latest := d'.latestProposalIds[a];
      if s.Propose? && latest == d.proposalCount + 1 {
        StepLatestNew(d, s);
      } else {
        StepChange(d, s, latest);
      }
    }
  }

  lemma StepLatestNew(d: Dao, s: Step)
    requires Steady(d) && Allowed(d, s) && Apply(d, s).proposalCount > d.proposalCount
    ensures var d' := Apply(d, s); var id := d'.proposalCount;
      id == d.proposalCount + 1 && At(d'.latestProposalIds, d'.P(id).proposer, 0) == id
      && s.Propose? && d'.P(id).proposer == s.proposer
  {
  }
}
