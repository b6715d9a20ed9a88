/** The governor contract and its timelock, proved to take exactly the steps of
    the governance state machine over the votes the token contract reports. */
module WordsDAOs {
  import opened Basics
  import opened Ledgers
  import opened Governance
  import opened GovernanceRuns
  import opened WordsTokens
  import opened Checkpoints

  // ------------------------------------------- governance/WordsDAOExecutor.sol

  class WordsDAOExecutor {
    const self: Address
    var admin: Address
    var delay: nat
    var queuedTransactions: set<Tx>

    constructor (self: Address, admin: Address, delay: nat)
      requires MINIMUM_DELAY <= delay <= MAXIMUM_DELAY
      ensures this.self == self && this.admin == admin && this.delay == delay && queuedTransactions == {}
    {
      this.self, this.admin, this.delay, queuedTransactions := self, admin, delay, {};
    }

    method SetDelay(sender: Address, newDelay: nat) returns (r: Outcome)
      modifies `delay
      ensures r == if sender == self && MINIMUM_DELAY <= newDelay <= MAXIMUM_DELAY then Success else Reverted
      ensures delay == if r.Success? then newDelay else old(delay)
    {
      if sender != self { return Reverted; }
      if newDelay < MINIMUM_DELAY { return Reverted; }
      if newDelay > MAXIMUM_DELAY { return Reverted; }
      delay := newDelay;
      return Success;
    }

    method QueueTransaction(sender: Address, tx: Tx, timestamp: nat) returns (r: Outcome)
      modifies `queuedTransactions
      ensures r == if sender == admin && tx.eta >= timestamp + delay then Success else Reverted
      ensures queuedTransactions == if r.Success? then old(queuedTransactions) + {tx} else old(queuedTransactions)
    {
      if sender != admin { return Reverted; }
      if tx.eta < timestamp + delay { return Reverted; }
      queuedTransactions := queuedTransactions + {tx};
      return Success;
    }

    method CancelTransaction(sender: Address, tx: Tx) returns (r: Outcome)
      modifies `queuedTransactions
      ensures r == if sender == admin then Success else Reverted
      ensures queuedTransactions == if r.Success? then old(queuedTransactions) - {tx} else old(queuedTransactions)
    {
      if sender != admin { return Reverted; }
      queuedTransactions := queuedTransactions - {tx};
      return Success;
    }

    /** Whether the call to the target succeeds is up to the target. */
    method ExecuteTransaction(sender: Address, tx: Tx, timestamp: nat, callSucceeds: bool) returns (r: Outcome)
      modifies `queuedTransactions
      ensures r == if sender == admin && tx in old(queuedTransactions) && callSucceeds
                      && tx.eta <= timestamp <= tx.eta + GRACE_PERIOD then Success else Reverted
      ensures queuedTransactions == if r.Success? then old(queuedTransactions) - {tx} else old(queuedTransactions)
    {
      if sender != admin { return Reverted; }
      if tx !in queuedTransactions { return Reverted; }
      if timestamp < tx.eta { return Reverted; }
      if timestamp > tx.eta + GRACE_PERIOD { return Reverted; }
      queuedTransactions := queuedTransactions - {tx};
      if !callSucceeds {
        queuedTransactions := queuedTransactions + {tx};  // undone by the revert
        return Reverted;
      }
      return Success;
    }

    method Restore(queued: set<Tx>)
      modifies `queuedTransactions
      ensures queuedTransactions == queued
    {
      queuedTransactions := queued;
    }
  }

  /** The transactions of the first `n` actions. */
  ghost function TxsTo(p: Proposal, n: nat): set<Tx>
    requires p.Arity() && n <= |p.targets|
  {
    set i: nat | i < n :: p.TxAt(i)
  }

  lemma TxsToAll(p: Proposal)
    requires p.Arity()
    ensures TxsTo(p, |p.targets|) == p.Txs() && TxsTo(p, 0) == {}
    ensures forall n: nat :: n < |p.targets| ==> TxsTo(p, n + 1) == TxsTo(p, n) + {p.TxAt(n)}
  {
    forall n: nat | n < |p.targets| ensures TxsTo(p, n + 1) == TxsTo(p, n) + {p.TxAt(n)} {}
  }

  // ---------------------------------------------- governance/WordsDAOLogicV1.sol

  class WordsDAO {
    const self: Address
    const timelock: WordsDAOExecutor
    const words: WordsToken

    var admin: Address
    var vetoer: Address
    var votingDelay: nat
    var votingPeriod: nat
    var proposalThresholdBPS: nat
    var quorumVotesBPS: nat
    var proposals: map<nat, Proposal>
    var proposalCount: nat
    var latestProposalIds: map<Address, nat>

    // history variables
    ghost var created: map<nat, nat>
    ghost var terms: map<nat, Terms>
    ghost var castAt: map<(nat, Address), nat>
    ghost var queuedAt: map<nat, nat>
    ghost var executedAt: map<nat, nat>

    /** The state of the governance machine these contracts implement. */
    ghost function D(): Dao
      reads this, timelock, words, words.votes
    {
      Dao(proposals, proposalCount, latestProposalIds, votingDelay, votingPeriod, proposalThresholdBPS, quorumVotesBPS,
          admin, vetoer, timelock.delay, timelock.queuedTransactions,
          words.votes.blockNumber, words.votes.timestamp, words.L(), words.votes.history,
          created, castAt, terms, queuedAt, executedAt)
    }

    ghost predicate Valid()
      reads this, timelock, words, words.list, words.votes
    {
      timelock.admin == self && words.Valid() && Inv(D())
    }

    constructor (self: Address, timelock: WordsDAOExecutor, words: WordsToken, admin: Address, vetoer: Address,
                 votingPeriod: nat, votingDelay: nat, proposalThresholdBPS: nat, quorumVotesBPS: nat)
      requires words.Valid() && timelock.admin == self && timelock.queuedTransactions == {}
      requires MINIMUM_DELAY <= timelock.delay <= MAXIMUM_DELAY
      requires MIN_VOTING_PERIOD <= votingPeriod <= MAX_VOTING_PERIOD
      requires MIN_VOTING_DELAY <= votingDelay <= MAX_VOTING_DELAY
      requires MIN_PROPOSAL_THRESHOLD_BPS <= proposalThresholdBPS <= MAX_PROPOSAL_THRESHOLD_BPS
      requires MIN_QUORUM_VOTES_BPS <= quorumVotesBPS <= MAX_QUORUM_VOTES_BPS
      ensures Valid() && Fresh(D())
      ensures this.self == self && this.timelock == timelock && this.words == words
      ensures this.admin == admin && this.vetoer == vetoer
      ensures this.votingPeriod == votingPeriod && this.votingDelay == votingDelay
      ensures this.proposalThresholdBPS == proposalThresholdBPS && this.quorumVotesBPS == quorumVotesBPS
      ensures created == map[] && castAt == map[] && terms == map[] && queuedAt == map[] && executedAt == map[]
    {
      this.self, this.timelock, this.words, this.admin, this.vetoer := self, timelock, words, admin, vetoer;
      this.votingPeriod, this.votingDelay := votingPeriod, votingDelay;
      this.proposalThresholdBPS, this.quorumVotesBPS := proposalThresholdBPS, quorumVotesBPS;
      proposals, proposalCount, latestProposalIds := map[], 0, map[];
      created, castAt, terms, queuedAt, executedAt := map[], map[], map[], map[], map[];
      new;
      TokenSound(words);
      FreshInv(D());
    }

    /** Queues every action, or fails at the first that is already queued. */
    method QueueAll(p: Proposal) returns (r: Outcome)
      requires timelock.admin == self && p.Arity()
      requires p.eta == words.votes.timestamp + timelock.delay
      modifies timelock`queuedTransactions
      ensures r == if p.Distinct() && p.Txs() !! old(timelock.queuedTransactions) then Success else Reverted
      ensures r.Success? ==> timelock.queuedTransactions == old(timelock.queuedTransactions) + p.Txs()
    {
      ghost var before := timelock.queuedTransactions;
      TxsToAll(p);
      for i := 0 to |p.targets|
        invariant timelock.queuedTransactions == before + TxsTo(p, i)
        invariant TxsTo(p, i) !! before
        invariant forall j: nat, k: nat :: j < k < i ==> p.TxAt(j) != p.TxAt(k)
      {
        if p.TxAt(i) in timelock.queuedTransactions {
          assert p.TxAt(i) in p.Txs();
          return Reverted;
        }
        r := timelock.QueueTransaction(self, p.TxAt(i), words.votes.timestamp);
        assert r.Success?;
      }
      return Success;
    }

    method ExecuteAll(p: Proposal, failing: set<nat>) returns (r: Outcome)
      requires timelock.admin == self && p.Arity()
      modifies timelock`queuedTransactions
      ensures r != Panicked
      ensures r.Success? <==>
              && p.Distinct() && p.Txs() <= old(timelock.queuedTransactions)
              && (p.targets != [] ==> p.eta <= words.votes.timestamp <= p.eta + GRACE_PERIOD)
              && (forall i: nat :: i < |p.targets| ==> i !in failing)
      ensures r.Success? ==> timelock.queuedTransactions == old(timelock.queuedTransactions) - p.Txs()
    {
      ghost var before := timelock.queuedTransactions;
      TxsToAll(p);
      for i := 0 to |p.targets|
        invariant timelock.queuedTransactions == before - TxsTo(p, i)
        invariant TxsTo(p, i) <= before
        invariant forall j: nat, k: nat :: j < k < i ==> p.TxAt(j) != p.TxAt(k)
        invariant forall j: nat :: j < i ==> j !in failing
        invariant i > 0 ==> p.eta <= words.votes.timestamp <= p.eta + GRACE_PERIOD
      {
        assert p.TxAt(i) in p.Txs();
        r := timelock.ExecuteTransaction(self, p.TxAt(i), words.votes.timestamp, i !in failing);
        if !r.Success? { return; }
      }
      return Success;
    }

    method CancelAll(p: Proposal)
      requires timelock.admin == self && p.Arity()
      modifies timelock`queuedTransactions
      ensures timelock.queuedTransactions == old(timelock.queuedTransactions) - p.Txs()
    {
      ghost var before := timelock.queuedTransactions;
      TxsToAll(p);
      for i := 0 to |p.targets|
        invariant timelock.queuedTransactions == before - TxsTo(p, i)
      {
        var r := timelock.CancelTransaction(self, p.TxAt(i));
      }
    }

    /** The state of a proposal; unknown ids revert. */
    method State(id: nat) returns (r: Outcome, s: ProposalState)
      requires Valid()
      ensures r == if id <= proposalCount then Success else Reverted
      ensures r.Success? ==> s == D().State(id)
    {
      if id > proposalCount { return Reverted, Pending; }
      return Success, StateOf(At(proposals, id, NO_PROPOSAL), words.votes.blockNumber, words.votes.timestamp);
    }

    /** The requirements of `propose`, in the order they are checked. */
    method CheckProposal(sender: Address, targets: seq<Address>, values: seq<nat>, signatures: seq<string>,
        calldatas: seq<string>)
      returns (r: Outcome)
      requires Valid()
      ensures Steady(D())
      ensures words.votes.blockNumber > 0 ==> r != Panicked
      ensures r.Success? <==> Allowed(D(), Step.Propose(sender, targets, values, signatures, calldatas))
    {
      hide Inv, Steady, Sound, WordsToken.Valid, WordsToken.L, Ledger.Votes, Ledger.Supply;
      SteadyOf(D());
      TokenSound(words);
      var totalSupply := words.TotalSupply();
      if words.votes.blockNumber == 0 { return Panicked; }
      var o, prior := words.GetPriorVotes(sender, words.votes.blockNumber - 1);
      if prior <= Bps2Uint(proposalThresholdBPS, totalSupply) { return Reverted; }
      if !(|targets| == |values| && |targets| == |signatures| && |targets| == |calldatas|) { return Reverted; }
      if |targets| == 0 { return Reverted; }
      if |targets| > PROPOSAL_MAX_OPERATIONS { return Reverted; }
      var latest := At(latestProposalIds, sender, 0);
      if latest != 0 {
        var found, state := State(latest);
        if !found.Success? { return Reverted; }
        if state == Active { return Reverted; }
        if state == Pending { return Reverted; }
      }
      return Success;
    }

    /** The proposal stored by `propose`, with the settings and the supply of now. */
    method NewProposal(sender: Address, targets: seq<Address>, values: seq<nat>, signatures: seq<string>,
        calldatas: seq<string>)
      returns (p: Proposal)
      requires words.Valid()
      ensures p == Proposed(D(), Step.Propose(sender, targets, values, signatures, calldatas))
    {
      hide Bps2Uint, WordsToken.Valid, Ledger.Supply;
      var totalSupply := words.TotalSupply();
      var startBlock := words.votes.blockNumber + votingDelay;
      var endBlock := startBlock + votingPeriod;
      p := Proposal(proposalCount + 1, sender, Bps2Uint(proposalThresholdBPS, totalSupply),
                    Bps2Uint(quorumVotesBPS, totalSupply), 0, targets, values, signatures, calldatas,
                    startBlock, endBlock, 0, 0, 0, false, false, false, map[]);
    }

    method Propose(sender: Address, targets: seq<Address>, values: seq<nat>, signatures: seq<string>,
        calldatas: seq<string>)
      returns (r: Outcome, id: nat)
      requires Valid()
      modifies `proposals, `proposalCount, `latestProposalIds, `created, `terms
      ensures Valid()
      ensures words.votes.blockNumber > 0 ==> r != Panicked
      ensures var s := Step.Propose(sender, targets, values, signatures, calldatas);
        && (r.Success? <==> Allowed(old(D()), s))
        && D() == (if r.Success? then Apply(old(D()), s) else old(D()))
        && (r.Success? ==> id == proposalCount == old(proposalCount) + 1)
    {
      hide Allowed, Apply, Proposed, TermsNow, Inv, Steady, Sound, WordsToken.Valid, WordsToken.L;
      hide Ledger.Votes, Ledger.Supply;
      ghost var d, s := D(), Step.Propose(sender, targets, values, signatures, calldatas);
      r := CheckProposal(sender, targets, values, signatures, calldatas);
      if !r.Success? { return r, 0; }
      var newProposal := NewProposal(sender, targets, values, signatures, calldatas);
      proposalCount := proposalCount + 1;
      id := proposalCount;
      proposals := proposals[id := newProposal];
      latestProposalIds := latestProposalIds[sender := id];
      created, terms := created[id := words.votes.blockNumber], terms[id := TermsNow(d, s)];
      ApplyPropose(d, s);
      StepInv(d, s);
    }

    method Queue(id: nat) returns (r: Outcome)
      requires Valid()
      modifies `proposals, `queuedAt, timelock`queuedTransactions
      ensures Valid()
      ensures r != Panicked
      ensures r.Success? <==> Allowed(old(D()), Step.Queue(id))
      ensures D() == if r.Success? then Apply(old(D()), Step.Queue(id)) else old(D())
    {
      hide StateOf, Allowed, Apply, Proposal.Txs, Proposal.Distinct, Inv, Steady, WordsToken.Valid, WordsToken.L;
      ghost var d := D();
      SteadyOf(d);
      ArityOf(d, id);
      AllowedQueue(d, id);
      var before := timelock.queuedTransactions;
      var found, state := State(id);
      if !found.Success? || state != Succeeded { return Reverted; }
      var p := At(proposals, id, NO_PROPOSAL).(eta := words.votes.timestamp + timelock.delay);
      r := QueueAll(p);
      if !r.Success? { timelock.Restore(before); return; }
      proposals := proposals[id := p];
      queuedAt := queuedAt[id := words.votes.timestamp];
      ApplyQueue(d, Step.Queue(id));
      StepInv(d, Step.Queue(id));
    }

    /** The targets are called with the proposal already marked executed. The
        whole call reverts if any action is refused or its target call fails. */
    method Execute(id: nat, failing: set<nat>) returns (r: Outcome)
      requires Valid()
      modifies `proposals, `executedAt, timelock`queuedTransactions
      ensures Valid()
      ensures r != Panicked
      ensures r.Success? <==> Allowed(old(D()), Step.Execute(id, failing))
      ensures D() == if r.Success? then Apply(old(D()), Step.Execute(id, failing)) else old(D())
    {
      hide StateOf, Allowed, Apply, Proposal.Txs, Proposal.Distinct, Inv, Steady, WordsToken.Valid, WordsToken.L;
      ghost var d := D();
      SteadyOf(d);
      ArityOf(d, id);
      AllowedExecute(d, id, failing);
      var found, state := State(id);
      if !found.Success? || state != Queued { return Reverted; }
      r := ExecuteMarked(id, At(proposals, id, NO_PROPOSAL), failing);
      if !r.Success? { return; }
      executedAt := executedAt[id := words.votes.timestamp];
      ApplyExecute(d, Step.Execute(id, failing));
      StepInv(d, Step.Execute(id, failing));
    }

    method ExecuteMarked(id: nat, p: Proposal, failing: set<nat>) returns (r: Outcome)
      requires timelock.admin == self && p.Arity()
      modifies `proposals, timelock`queuedTransactions
      ensures r != Panicked
      ensures r.Success? <==>
              && p.Distinct() && p.Txs() <= old(timelock.queuedTransactions)
              && (p.targets != [] ==> p.eta <= words.votes.timestamp <= p.eta + GRACE_PERIOD)
              && (forall i: nat :: i < |p.targets| ==> i !in failing)
      ensures proposals == if r.Success? then old(proposals)[id := p.(executed := true)] else old(proposals)
      ensures timelock.queuedTransactions ==
              if r.Success? then old(timelock.queuedTransactions) - p.Txs() else old(timelock.queuedTransactions)
    {
      hide Proposal.Txs, Proposal.Distinct;
      var before, proposalsBefore := timelock.queuedTransactions, proposals;
      proposals := proposals[id := p.(executed := true)];
      r := ExecuteAll(p, failing);
      if !r.Success? {
        proposals := proposalsBefore;
        timelock.Restore(before);
      }
    }

    /** Anyone may cancel once the proposer's votes fell below the threshold. */
    method CheckCancel(sender: Address, id: nat) returns (r: Outcome)
      requires Valid()
      ensures Steady(D())
      ensures words.votes.blockNumber > 0 ==> r != Panicked
      ensures r.Success? <==> Allowed(D(), Step.Cancel(sender, id))
    {
      hide StateOf, Inv, Steady, Sound, WordsToken.Valid, WordsToken.L, Ledger.Votes, Ledger.Supply;
      SteadyOf(D());
      TokenSound(words);
      var found, state := State(id);
      if !found.Success? || state == Executed { return Reverted; }
      var p := At(proposals, id, NO_PROPOSAL);
      if sender != p.proposer {
        if words.votes.blockNumber == 0 { return Panicked; }
        var o, prior := words.GetPriorVotes(p.proposer, words.votes.blockNumber - 1);
        if prior >= p.proposalThreshold { return Reverted; }
      }
      return Success;
    }

    method Cancel(sender: Address, id: nat) returns (r: Outcome)
      requires Valid()
      modifies `proposals, timelock`queuedTransactions
      ensures Valid()
      ensures words.votes.blockNumber > 0 ==> r != Panicked
      ensures r.Success? <==> Allowed(old(D()), Step.Cancel(sender, id))
      ensures D() == if r.Success? then Apply(old(D()), Step.Cancel(sender, id)) else old(D())
    {
      hide Apply, Allowed, Proposal.Txs, Inv, Steady, Sound, WordsToken.Valid, WordsToken.L;
      ghost var d := D();
      r := CheckCancel(sender, id);
      if !r.Success? { return; }
      ArityOf(d, id);
      var p := At(proposals, id, NO_PROPOSAL);
      proposals := proposals[id := p.(canceled := true)];
      CancelAll(p);
      ApplyCancel(d, Step.Cancel(sender, id));
      StepInv(d, Step.Cancel(sender, id));
    }

    method Veto(sender: Address, id: nat) returns (r: Outcome)
      requires Valid()
      modifies `proposals, timelock`queuedTransactions
      ensures Valid()
      ensures r != Panicked
      ensures r.Success? <==> Allowed(old(D()), Step.Veto(sender, id))
      ensures D() == if r.Success? then Apply(old(D()), Step.Veto(sender, id)) else old(D())
    {
      hide StateOf, Inv, Steady, Sound, WordsToken.Valid, WordsToken.L, Ledger.Votes, Ledger.Supply;
      ghost var d := D();
      SteadyOf(d);
      if vetoer == ZERO { return Reverted; }
      if sender != vetoer { return Reverted; }
      var found, state := State(id);
      if !found.Success? || state == Executed { return Reverted; }
      ArityOf(d, id);
      var p := At(proposals, id, NO_PROPOSAL);
      proposals := proposals[id := p.(vetoed := true)];
      CancelAll(p);
      assert D() == Apply(d, Step.Veto(sender, id));
      StepInv(d, Step.Veto(sender, id));
      return Success;
    }

    /** The requirements of a vote and its weight: what the voter had
        `votingDelay` blocks before voting started, with the voting delay of now. */
    method WeighVote(voter: Address, id: nat, support: nat) returns (r: Outcome, votes: nat)
      requires Valid()
      ensures Steady(D())
      ensures r == Panicked ==> votingDelay > D().P(id).startBlock
      ensures r.Success? <==> Allowed(D(), Step.CastVote(voter, id, support))
      ensures r.Success? ==> var b := D().P(id).startBlock - votingDelay;
                support <= 2 && 0 <= b < |D().history| && votes == D().history[b].Votes(voter)
    {
      hide Inv, Steady, Sound, WordsToken.Valid, WordsToken.L, Ledger.Votes, Ledger.Supply;
      SteadyOf(D());
      TokenSound(words);
      var found, state := State(id);
      if !found.Success? || state != Active { return Reverted, 0; }
      if support > 2 { return Reverted, 0; }
      var p := At(proposals, id, NO_PROPOSAL);
      if At(p.receipts, voter, NO_RECEIPT).hasVoted { return Reverted, 0; }
      if votingDelay > p.startBlock { return Panicked, 0; }
      r, votes := words.GetPriorVotes(voter, p.startBlock - votingDelay);
    }

    /** Adds the vote to the tally of its support and records the receipt. */
    static method CountVote(proposal: Proposal, voter: Address, support: nat, votes: nat) returns (p: Proposal)
      requires support <= 2
      ensures p == Voted(proposal, voter, support, votes)
    {
      p := proposal;
      if support == 0 {
        p := p.(againstVotes := p.againstVotes + votes);
      } else if support == 1 {
        p := p.(forVotes := p.forVotes + votes);
      } else if support == 2 {
        p := p.(abstainVotes := p.abstainVotes + votes);
      }
      p := p.(receipts := p.receipts[voter := Receipt(true, support, votes)]);
    }

    method CastVote(voter: Address, id: nat, support: nat) returns (r: Outcome, votes: nat)
      requires Valid()
      modifies `proposals, `castAt
      ensures Valid()
      ensures r == Panicked ==> votingDelay > old(D()).P(id).startBlock
      ensures r.Success? <==> Allowed(old(D()), Step.CastVote(voter, id, support))
      ensures D() == if r.Success? then Apply(old(D()), Step.CastVote(voter, id, support)) else old(D())
      ensures r.Success? ==> var b := old(D()).P(id).startBlock - votingDelay;
                0 <= b < |words.votes.history| && votes == words.votes.history[b].Votes(voter)
    {
      hide Voted, StateOf, Allowed, Apply, Inv, Steady, Sound, WordsToken.Valid, WordsToken.L, Ledger.Votes,
           Ledger.Supply;
      ghost var d := D();
      r, votes := WeighVote(voter, id, support);
      if !r.Success? { return; }
      var p := CountVote(At(proposals, id, NO_PROPOSAL), voter, support, votes);
      proposals := proposals[id := p];
      castAt := castAt[(id, voter) := d.P(id).startBlock - d.votingDelay];
      ApplyCastVote(d, Step.CastVote(voter, id, support), votes);
      StepInv(d, Step.CastVote(voter, id, support));
    }

    method SetVotingDelay(sender: Address, newVotingDelay: nat) returns (r: Outcome)
      requires Valid()
      modifies `votingDelay
      ensures Valid()
      ensures r != Panicked
      ensures r.Success? <==> Allowed(old(D()), Step.SetVotingDelay(sender, newVotingDelay))
      ensures D() == if r.Success? then Apply(old(D()), Step.SetVotingDelay(sender, newVotingDelay)) else old(D())
    {
      hide Inv, Steady, Sound, WordsToken.Valid, WordsToken.L, Ledger.Votes, Ledger.Supply;
      ghost var d := D();
      SteadyOf(d);
      if sender != admin { return Reverted; }
      if !(newVotingDelay >= MIN_VOTING_DELAY && newVotingDelay <= MAX_VOTING_DELAY) { return Reverted; }
      votingDelay := newVotingDelay;
      StepInv(d, Step.SetVotingDelay(sender, newVotingDelay));
      return Success;
    }

    method SetVotingPeriod(sender: Address, newVotingPeriod: nat) returns (r: Outcome)
      requires Valid()
      modifies `votingPeriod
      ensures Valid()
      ensures r != Panicked
      ensures r.Success? <==> Allowed(old(D()), Step.SetVotingPeriod(sender, newVotingPeriod))
      ensures D() == if r.Success? then Apply(old(D()), Step.SetVotingPeriod(sender, newVotingPeriod)) else old(D())
    {
      hide Inv, Steady, Sound, WordsToken.Valid, WordsToken.L, Ledger.Votes, Ledger.Supply;
      ghost var d := D();
      SteadyOf(d);
      if sender != admin { return Reverted; }
      if !(newVotingPeriod >= MIN_VOTING_PERIOD && newVotingPeriod <= MAX_VOTING_PERIOD) { return Reverted; }
      votingPeriod := newVotingPeriod;
      StepInv(d, Step.SetVotingPeriod(sender, newVotingPeriod));
      return Success;
    }

    /** A block ends around all contracts. */
    method NextBlock(elapsed: nat)
      requires Valid()
      modifies words.votes`blockNumber, words.votes`timestamp, words.votes`history
      ensures Valid()
      ensures D() == Next(old(D()), Step.NextBlock(elapsed))
    {
      hide Inv, Steady, Sound, WordsToken.Valid, WordsToken.L, Ledger.Votes, Ledger.Supply;
      ghost var d := D();
      SteadyOf(d);
      words.NextBlock(elapsed);
      assert D() == Apply(d, Step.NextBlock(elapsed));
      StepInv(d, Step.NextBlock(elapsed));
    }

    /** Whatever happens to the token alone is a step of the machine as well. */
    twostate lemma TokenStep()
      requires old(Valid()) && words.Valid()
      requires unchanged(this) && unchanged(timelock)
      requires words.votes.blockNumber == old(words.votes.blockNumber)
               && words.votes.timestamp == old(words.votes.timestamp)
      requires words.votes.history == old(words.votes.history)
      ensures Valid() && Allowed(old(D()), TokenChange(words.L()))
      ensures D() == Apply(old(D()), TokenChange(words.L()))
    {
      hide Inv, Steady, Sound, WordsToken.Valid, WordsToken.L, Ledger.Votes, Ledger.Supply;
      SteadyOf(old(D()));
      TokenSound(words);
      StepInv(old(D()), TokenChange(words.L()));
    }

    /** The timelock changes its delay by executing a call to itself. */
    method TimelockSetDelay(newDelay: nat) returns (r: Outcome)
      requires Valid()
      modifies timelock`delay
      ensures Valid()
      ensures r != Panicked
      ensures r.Success? <==> Allowed(old(D()), Step.SetDelay(newDelay))
      ensures D() == if r.Success? then Apply(old(D()), Step.SetDelay(newDelay)) else old(D())
    {
      hide Inv, Steady, Sound, WordsToken.Valid, WordsToken.L, Ledger.Votes, Ledger.Supply;
      ghost var d := D();
      SteadyOf(d);
      r := timelock.SetDelay(timelock.self, newDelay);
      if r.Success? { StepInv(d, Step.SetDelay(newDelay)); }
    }
  }

  /** The token never reports negative votes, now or for a past block. */
  lemma TokenSound(words: WordsToken)
    requires words.Valid()
    ensures Sound(words.L()) && |words.votes.history| == words.votes.blockNumber
    ensures forall l :: l in words.votes.history ==> Sound(l)
  {
    var v := words.votes;
    forall a ensures words.L().Votes(a) >= 0 {
      assert Replays(v.T(a), a, v.blockNumber, words.L(), v.history);
    }
    forall b: nat | b < |v.history| ensures Sound(v.history[b]) {
      forall a ensures v.history[b].Votes(a) >= 0 {
        assert Replays(v.T(a), a, v.blockNumber, words.L(), v.history);
        assert Lookup(v.T(a), b) == v.history[b].Votes(a);
      }
    }
  }

  lemma SteadyOf(d: Dao)
    requires Inv(d)
    ensures Steady(d)
  {
  }

  lemma ArityOf(d: Dao, id: nat)
    requires Steady(d)
    ensures d.P(id).Arity()
  {
  }

  lemma ApplyPropose(d: Dao, s: Step)
    requires Steady(d) && Allowed(d, s) && s.Propose?
    ensures var id := d.proposalCount + 1;
      Apply(d, s) == d.(proposals := d.proposals[id := Proposed(d, s)], proposalCount := id,
                        latestProposalIds := d.latestProposalIds[s.proposer := id],
                        created := d.created[id := d.block], terms := d.terms[id := TermsNow(d, s)])
  {
  }

  lemma AllowedQueue(d: Dao, id: nat)
    requires Steady(d)
    ensures Allowed(d, Step.Queue(id)) <==>
            id <= d.proposalCount && d.State(id) == Succeeded &&
            var p := d.P(id).(eta := d.time + d.delay); p.Distinct() && p.Txs() !! d.queue
  {
  }

  lemma ApplyQueue(d: Dao, s: Step)
    requires Steady(d) && s.Queue? && Allowed(d, s)
    ensures var p := d.P(s.id).(eta := d.time + d.delay);
      Apply(d, s) == d.(proposals := d.proposals[s.id := p], queue := d.queue + p.Txs(),
                        queuedAt := d.queuedAt[s.id := d.time])
  {
    hide Sound;
  }

  lemma AllowedExecute(d: Dao, id: nat, failing: set<nat>)
    requires Steady(d)
    ensures Allowed(d, Step.Execute(id, failing)) <==>
            id <= d.proposalCount && d.State(id) == Queued && var p := d.P(id);
            && p.Distinct() && p.Txs() <= d.queue
            && (p.targets != [] ==> p.eta <= d.time <= p.eta + GRACE_PERIOD)
            && (forall i: nat :: i < |p.targets| ==> i !in failing)
  {
  }

  lemma ApplyExecute(d: Dao, s: Step)
    requires Steady(d) && s.Execute? && Allowed(d, s)
    ensures Apply(d, s) == d.(proposals := d.proposals[s.id := d.P(s.id).(executed := true)],
                              queue := d.queue - d.P(s.id).Txs(), executedAt := d.executedAt[s.id := d.time])
  {
    hide Sound;
  }

  lemma ApplyCancel(d: Dao, s: Step)
    requires Steady(d) && s.Cancel? && Allowed(d, s)
    ensures Apply(d, s) == d.(proposals := d.proposals[s.id := d.P(s.id).(canceled := true)],
                              queue := d.queue - d.P(s.id).Txs())
  {
    hide Sound;
  }

  lemma ApplyCastVote(d: Dao, s: Step, votes: nat)
    requires Steady(d) && s.CastVote? && Allowed(d, s)
    requires var b := d.P(s.id).startBlock - d.votingDelay; b < |d.history| && d.history[b].Votes(s.voter) == votes
    ensures Apply(d, s) == d.(proposals := d.proposals[s.id := Voted(d.P(s.id), s.voter, s.support, votes)],
                              castAt := d.castAt[(s.id, s.voter) := d.P(s.id).startBlock - d.votingDelay])
  {
  }
}
