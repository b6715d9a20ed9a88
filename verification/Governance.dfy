/** The governor and its timelock as one state machine over the token's ledger.

    A step is an external call, a change of the token's ledger, or the end of a
    block. `Allowed` says when the call does not revert and `Apply` what it
    leaves behind; a call that reverts leaves everything as it was. */
module Governance {
  import opened Basics
  import opened Ledgers

  const DAY: nat := 24 * 60 * 60
  const GRACE_PERIOD: nat := 14 * DAY
  const MINIMUM_DELAY: nat := 2 * DAY
  const MAXIMUM_DELAY: nat := 30 * DAY

  const MIN_PROPOSAL_THRESHOLD_BPS: nat := 1
  const MAX_PROPOSAL_THRESHOLD_BPS: nat := 1_000
  const MIN_VOTING_PERIOD: nat := 5_760
  const MAX_VOTING_PERIOD: nat := 80_640
  const MIN_VOTING_DELAY: nat := 1
  const MAX_VOTING_DELAY: nat := 40_320
  const MIN_QUORUM_VOTES_BPS: nat := 200
  const MAX_QUORUM_VOTES_BPS: nat := 2_000
  const PROPOSAL_MAX_OPERATIONS: nat := 10

  /** A timelock transaction; the hash that keys it is taken to be collision-free. */
  datatype Tx = Tx(target: Address, value: nat, signature: string, data: string, eta: nat)

  datatype Receipt = Receipt(hasVoted: bool, support: nat, votes: nat)

  datatype Proposal = Proposal(
    id: nat, proposer: Address, proposalThreshold: nat, quorumVotes: nat, eta: nat,
    targets: seq<Address>, values: seq<nat>, signatures: seq<string>, calldatas: seq<string>,
    startBlock: nat, endBlock: nat, forVotes: nat, againstVotes: nat, abstainVotes: nat,
    canceled: bool, vetoed: bool, executed: bool, receipts: map<Address, Receipt>)
  {
    predicate Arity() {
      |targets| == |values| == |signatures| == |calldatas|
    }

    function TxAt(i: nat): Tx
      requires Arity() && i < |targets|
    {
      Tx(targets[i], values[i], signatures[i], calldatas[i], eta)
    }

    /** The timelock transactions of the proposal at its eta. */
    ghost function Txs(): set<Tx> {
      set i: nat | Arity() && i < |targets| :: TxAt(i)
    }

    predicate Distinct() {
      Arity() && forall i: nat, j: nat :: i < j < |targets| ==> TxAt(i) != TxAt(j)
    }

    predicate Passed() {
      forVotes > againstVotes && forVotes >= quorumVotes
    }

    /** Queued and still to be executed. */
    predicate Live() {
      eta != 0 && !executed && !canceled && !vetoed
    }
  }

  const NO_RECEIPT := Receipt(false, 0, 0)
  const NO_PROPOSAL := Proposal(0, ZERO, 0, 0, 0, [], [], [], [], 0, 0, 0, 0, 0, false, false, false, map[])

  datatype ProposalState = Pending | Active | Canceled | Defeated | Succeeded | Queued | Expired | Executed | Vetoed

  function StateOf(p: Proposal, block: nat, time: nat): ProposalState {
    if p.vetoed then Vetoed
    else if p.canceled then Canceled
    else if block <= p.startBlock then Pending
    else if block <= p.endBlock then Active
    else if p.forVotes <= p.againstVotes || p.forVotes < p.quorumVotes then Defeated
    else if p.eta == 0 then Succeeded
    else if p.executed then Executed
    else if time >= p.eta + GRACE_PERIOD then Expired
    else Queued
  }

  function Bps2Uint(bps: nat, number: nat): nat {
    (number * bps) / 10000
  }

  datatype Dao = Dao(
    proposals: map<nat, Proposal>, proposalCount: nat, latestProposalIds: map<Address, nat>,
    votingDelay: nat, votingPeriod: nat, proposalThresholdBPS: nat, quorumVotesBPS: nat,
    admin: Address, vetoer: Address,
    // the timelock
    delay: nat, queue: set<Tx>,
    // the chain and the token
    block: nat, time: nat, ledger: Ledger, history: seq<Ledger>,
    // history variables
    created: map<nat, nat>,             // the block a proposal was made in
    castAt: map<(nat, Address), nat>,   // the block a receipt took its votes from
    terms: map<nat, Terms>,             // what a proposal was made with
    queuedAt: map<nat, nat>,            // the time a proposal was queued
    executedAt: map<nat, nat>)          // the time a proposal was executed
  {
    function P(id: nat): Proposal {
      At(proposals, id, NO_PROPOSAL)
    }

    function State(id: nat): ProposalState {
      StateOf(P(id), block, time)
    }

    predicate Open(id: nat) {
      State(id) == Pending || State(id) == Active
    }

    /** The votes an account had at the end of a past block. */
    ghost function Prior(a: Address, b: nat): int
      requires b < |history|
    {
      history[b].Votes(a)
    }

    function With(id: nat, p: Proposal): Dao {
      this.(proposals := proposals[id := p])
    }
  }

  datatype Step =
    | Propose(proposer: Address, targets: seq<Address>, values: seq<nat>, signatures: seq<string>,
              calldatas: seq<string>)
    | Queue(id: nat)
    | Execute(id: nat, failing: set<nat>)  // the actions whose target call fails
    | Cancel(sender: Address, id: nat)
    | Veto(sender: Address, id: nat)
    | CastVote(voter: Address, id: nat, support: nat)
    | SetVotingDelay(sender: Address, blocks: nat)
    | SetVotingPeriod(sender: Address, blocks: nat)
    | SetProposalThresholdBPS(sender: Address, bps: nat)
    | SetQuorumVotesBPS(sender: Address, bps: nat)
    | SetDelay(seconds: nat)               // the timelock calling itself
    | TokenChange(ledger: Ledger)          // any call on the token
    | NextBlock(elapsed: nat)

  /** What a proposal was made with: the call, the settings of the governor, and
      the total supply. */
  datatype Terms = Terms(call: Step, block: nat, supply: nat, delay: nat, period: nat,
                         thresholdBPS: nat, quorumBPS: nat)

  ghost predicate Sound(l: Ledger) {
    l.Wf() && forall a :: l.Votes(a) >= 0
  }

  /** The latest proposal of a proposer is not open any more. */
  predicate MayPropose(d: Dao, proposer: Address) {
    var latest := At(d.latestProposalIds, proposer, 0);
    latest == 0 || (latest <= d.proposalCount && !d.Open(latest))
  }

  /** The action arrays agree in length and hold one to ten actions. */
  predicate ActionsOk(targets: seq<Address>, values: seq<nat>, signatures: seq<string>, calldatas: seq<string>) {
    |targets| == |values| == |signatures| == |calldatas| && 0 < |targets| <= PROPOSAL_MAX_OPERATIONS
  }

  /** The shape of a state in which steps can be taken: one past ledger for each
      past block, and no half-filled proposal. */
  ghost predicate Steady(d: Dao) {
    && |d.history| == d.block
    && (forall l :: l in d.history ==> Sound(l))
    && (forall id: nat :: id in d.proposals ==> d.proposals[id].Arity())
  }

  ghost predicate Allowed(d: Dao, s: Step)
    requires Steady(d)
  {
    match s
    case Propose(proposer, targets, values, signatures, calldatas) =>
      && d.block > 0
      && d.Prior(proposer, d.block - 1) > Bps2Uint(d.proposalThresholdBPS, d.ledger.Supply())
      && ActionsOk(targets, values, signatures, calldatas)
      && MayPropose(d, proposer)
    case Queue(id) =>
      id <= d.proposalCount && d.State(id) == Succeeded &&
      var p := d.P(id).(eta := d.time + d.delay);
      p.Distinct() && p.Txs() !! d.queue
    case Execute(id, failing) =>
      id <= d.proposalCount && d.State(id) == Queued &&
      var p := d.P(id);
      && p.Distinct() && p.Txs() <= d.queue
      && (p.targets != [] ==> p.eta <= d.time <= p.eta + GRACE_PERIOD)  // each action checks the time lock
      && (forall i: nat :: i < |p.targets| ==> i !in failing)
    case Cancel(sender, id) =>
      && id <= d.proposalCount && d.State(id) != Executed
      && (sender == d.P(id).proposer ||
          (d.block > 0 && d.Prior(d.P(id).proposer, d.block - 1) < d.P(id).proposalThreshold))
    case Veto(sender, id) =>
      && d.vetoer != ZERO && sender == d.vetoer
      && id <= d.proposalCount && d.State(id) != Executed
    case CastVote(voter, id, support) =>
      && id <= d.proposalCount && d.State(id) == Active && support <= 2
      && !At(d.P(id).receipts, voter, NO_RECEIPT).hasVoted
      && d.votingDelay <= d.P(id).startBlock
    case SetVotingDelay(sender, n) => sender == d.admin && MIN_VOTING_DELAY <= n <= MAX_VOTING_DELAY
    case SetVotingPeriod(sender, n) => sender == d.admin && MIN_VOTING_PERIOD <= n <= MAX_VOTING_PERIOD
    case SetProposalThresholdBPS(sender, n) =>
      sender == d.admin && MIN_PROPOSAL_THRESHOLD_BPS <= n <= MAX_PROPOSAL_THRESHOLD_BPS
    case SetQuorumVotesBPS(sender, n) => sender == d.admin && MIN_QUORUM_VOTES_BPS <= n <= MAX_QUORUM_VOTES_BPS
    case SetDelay(n) => MINIMUM_DELAY <= n <= MAXIMUM_DELAY
    case TokenChange(l) => Sound(l)
    case NextBlock(_) => true
  }

  ghost function Proposed(d: Dao, s: Step): Proposal
    requires s.Propose?
  {
    Proposal(
      d.proposalCount + 1, s.proposer, Bps2Uint(d.proposalThresholdBPS, d.ledger.Supply()),
      Bps2Uint(d.quorumVotesBPS, d.ledger.Supply()), 0,
      s.targets, s.values, s.signatures, s.calldatas,
      d.block + d.votingDelay, d.block + d.votingDelay + d.votingPeriod,
      0, 0, 0, false, false, false, map[])
  }

  ghost function TermsNow(d: Dao, s: Step): Terms {
    Terms(s, d.block, d.ledger.Supply(), d.votingDelay, d.votingPeriod, d.proposalThresholdBPS, d.quorumVotesBPS)
  }

  function Voted(p: Proposal, voter: Address, support: nat, votes: nat): Proposal {
    p.(againstVotes := p.againstVotes + (if support == 0 then votes else 0),
       forVotes := p.forVotes + (if support == 1 then votes else 0),
       abstainVotes := p.abstainVotes + (if support == 2 then votes else 0),
       receipts := p.receipts[voter := Receipt(true, support, votes)])
  }

  ghost function Apply(d: Dao, s: Step): Dao
    requires Steady(d) && Allowed(d, s)
  {
    match s
    case Propose(proposer, _, _, _, _) =>
      var id := d.proposalCount + 1;
      d.With(id, Proposed(d, s)).(proposalCount := id, latestProposalIds := d.latestProposalIds[proposer := id],
                                  created := d.created[id := d.block], terms := d.terms[id := TermsNow(d, s)])
    case Queue(id) =>
      var p := d.P(id).(eta := d.time + d.delay);
      d.With(id, p).(queue := d.queue + p.Txs(), queuedAt := d.queuedAt[id := d.time])
    case Execute(id, _) =>
      d.With(id, d.P(id).(executed := true)).(queue := d.queue - d.P(id).Txs(),
                                              executedAt := d.executedAt[id := d.time])
    case Cancel(_, id) =>
      d.With(id, d.P(id).(canceled := true)).(queue := d.queue - d.P(id).Txs())
    case Veto(_, id) =>
      d.With(id, d.P(id).(vetoed := true)).(queue := d.queue - d.P(id).Txs())
    case CastVote(voter, id, support) =>
      var b := d.P(id).startBlock - d.votingDelay;
      assert Sound(d.history[b]);
      d.With(id, Voted(d.P(id), voter, support, d.Prior(voter, b))).(castAt := d.castAt[(id, voter) := b])
    case SetVotingDelay(_, n) => d.(votingDelay := n)
    case SetVotingPeriod(_, n) => d.(votingPeriod := n)
    case SetProposalThresholdBPS(_, n) => d.(proposalThresholdBPS := n)
    case SetQuorumVotesBPS(_, n) => d.(quorumVotesBPS := n)
    case SetDelay(n) => d.(delay := n)
    case TokenChange(l) => d.(ledger := l)
    case NextBlock(elapsed) => d.(block := d.block + 1, time := d.time + elapsed, history := d.history + [d.ledger])
  }

  // -------------------------------------------------------------- invariants

  predicate GoodSettings(d: Dao) {
    && MIN_VOTING_DELAY <= d.votingDelay <= MAX_VOTING_DELAY
    && MIN_VOTING_PERIOD <= d.votingPeriod <= MAX_VOTING_PERIOD
    && MIN_PROPOSAL_THRESHOLD_BPS <= d.proposalThresholdBPS <= MAX_PROPOSAL_THRESHOLD_BPS
    && MIN_QUORUM_VOTES_BPS <= d.quorumVotesBPS <= MAX_QUORUM_VOTES_BPS
    && MINIMUM_DELAY <= d.delay <= MAXIMUM_DELAY
  }

  predicate GoodShape(p: Proposal) {
    && p.Arity() && 0 < |p.targets| <= PROPOSAL_MAX_OPERATIONS
    && p.startBlock + MIN_VOTING_PERIOD <= p.endBlock
  }

  /** What being queued or executed says about the past of a proposal. */
  predicate GoodPast(d: Dao, id: nat) {
    var p := d.P(id);
    && (id in d.created && d.created[id] <= d.block && d.created[id] <= p.startBlock)
    && (p.eta != 0 ==>
          && p.endBlock < d.block && p.Passed()
          && id in d.queuedAt && d.queuedAt[id] + MINIMUM_DELAY <= p.eta && d.queuedAt[id] <= d.time)
    && (p.executed ==>
          && p.eta != 0 && !p.canceled && !p.vetoed
          && id in d.executedAt && p.eta <= d.executedAt[id] < p.eta + GRACE_PERIOD && d.executedAt[id] <= d.time)
  }

  /** `votes` is `bps` basis points of the supply, rounded down. */
  predicate IsShare(votes: nat, bps: nat, supply: nat) {
    10000 * votes <= bps * supply < 10000 * (votes + 1)
  }

  /** The proposal is as it was made: the proposer and the actions of the call, its
      voting window, and its threshold and quorum as shares of the supply. */
  predicate GoodTerms(d: Dao, id: nat) {
    id in d.terms && var p, t := d.P(id), d.terms[id];
    && p.id == id && t.call.Propose? && id in d.created && t.block == d.created[id]
    && p.proposer == t.call.proposer && p.targets == t.call.targets && p.values == t.call.values
    && p.signatures == t.call.signatures && p.calldatas == t.call.calldatas
    && p.startBlock == t.block + t.delay && p.endBlock == p.startBlock + t.period
    && MIN_VOTING_DELAY <= t.delay <= MAX_VOTING_DELAY && MIN_VOTING_PERIOD <= t.period <= MAX_VOTING_PERIOD
    && MIN_PROPOSAL_THRESHOLD_BPS <= t.thresholdBPS <= MAX_PROPOSAL_THRESHOLD_BPS
    && MIN_QUORUM_VOTES_BPS <= t.quorumBPS <= MAX_QUORUM_VOTES_BPS
    && IsShare(p.proposalThreshold, t.thresholdBPS, t.supply) && IsShare(p.quorumVotes, t.quorumBPS, t.supply)
  }

  /** The votes a voter cast, and those it cast with a given support. */
  function Ballot(receipts: map<Address, Receipt>, v: Address): nat {
    if v in receipts then receipts[v].votes else 0
  }

  function BallotFor(receipts: map<Address, Receipt>, support: nat, v: Address): nat {
    if v in receipts && receipts[v].support == support then receipts[v].votes else 0
  }

  /** The votes with a given support, summed over the receipts. */
  ghost function Tally(receipts: map<Address, Receipt>, support: nat): int {
    Sum(receipts.Keys, BallotsFor(receipts, support))
  }

  ghost function BallotsFor(receipts: map<Address, Receipt>, support: nat): Address -> int {
    (v: Address) => BallotFor(receipts, support, v)
  }

  ghost function Ballots(receipts: map<Address, Receipt>): Address -> int {
    (v: Address) => Ballot(receipts, v)
  }

  /** The tallies are the sums of the receipts, and each receipt holds the votes
      its voter had at the end of the block it was weighed at. */
  ghost predicate GoodTally(p: Proposal) {
    && p.againstVotes == Tally(p.receipts, 0)
    && p.forVotes == Tally(p.receipts, 1)
    && p.abstainVotes == Tally(p.receipts, 2)
    && (forall v :: v in p.receipts ==> p.receipts[v].hasVoted && p.receipts[v].support <= 2)
  }

  ghost predicate GoodReceipts(d: Dao, id: nat) {
    forall v :: v in d.P(id).receipts ==>
      (id, v) in d.castAt && d.castAt[(id, v)] < |d.history| &&
      d.P(id).receipts[v].votes == d.history[d.castAt[(id, v)]].Votes(v)
  }

  /** Only the latest proposal of a proposer can be open. */
  predicate OnlyLatestOpen(d: Dao) {
    forall id: nat :: 1 <= id <= d.proposalCount && d.Open(id) ==> At(d.latestProposalIds, d.P(id).proposer, 0) == id
  }

  /** The latest proposal of a proposer is its own. */
  predicate LatestOwned(d: Dao) {
    forall a :: a in d.latestProposalIds && d.latestProposalIds[a] != 0 ==>
      d.latestProposalIds[a] <= d.proposalCount && d.P(d.latestProposalIds[a]).proposer == a
  }

  /** Every pending transaction belongs to a proposal that is queued and not
      executed, canceled or vetoed. */
  ghost predicate QueueOwned(d: Dao)
  {
    forall tx :: tx in d.queue ==>
      exists id :: id in d.proposals && d.proposals[id].Live() && tx in d.proposals[id].Txs()
  }

  /** The ids in use are 1 to the count; nothing but a veto can reach id 0. */
  predicate GoodIds(d: Dao) {
    && (forall id: nat :: id in d.proposals ==> id <= d.proposalCount)
    && (forall id: nat :: 1 <= id <= d.proposalCount ==> id in d.proposals)
    && !d.P(0).executed && d.P(0).eta == 0 && d.P(0).forVotes == 0 && d.P(0).endBlock == 0 && d.P(0).targets == []
  }

  ghost predicate GoodProposal(d: Dao, id: nat) {
    GoodShape(d.P(id)) && GoodPast(d, id) && GoodTally(d.P(id)) && GoodReceipts(d, id) && GoodTerms(d, id)
  }

  ghost predicate Inv(d: Dao) {
    && Steady(d) && Sound(d.ledger) && GoodSettings(d) && GoodIds(d)
    && (forall id: nat :: 1 <= id <= d.proposalCount ==> GoodProposal(d, id))
    && OnlyLatestOpen(d) && LatestOwned(d)
    && QueueOwned(d)
  }
}
