# Words: verified models

A Dafny 4.11 project that models the parts of the Words contracts, image library
and indexers in which state, loops and arithmetic interact, and proves what they
are for. `dafny verify dfyconfig.toml` checks all of it.

**Votes.** `Ledgers` is the simple form: who owns which word, whom each account
chose, and nothing stored but that. Votes and balances are counted. The token
contract (`WordsTokens`, over `ERC721Enumerables` and `ERC721Checkpointables`) keeps
balances, two swap-and-pop indexes, checkpoints and an event log beside it, and
`Valid` says that all of them describe the ledger, and that the checkpoints of
every account replay the ledger at the end of every past block. The constructor
establishes it and every call and every new block keeps it, so it holds in every
state of every run. The transfer hook runs before owners and balances are written;
its contract says that the indexes already describe the ledger after the move.

A delegation signed for the zero address gives the delegator's votes to nobody
while the delegator goes on representing itself. The ledger counts these votes as
forfeited, so votes are exact in every run, and each theorem about conservation
says exactly when it holds.

**Governor.** `Governance` is the governor and its timelock as a state machine over
the ledger: `Allowed` and `Apply` for each call, for a change of the token and for
the end of a block. `GovernanceProofs` and `GovernanceRuns` prove what every step and
every run keeps, and `GovernanceAcceptance` exactly which calls are accepted, in terms
of what is stored and of the settings and the supply a proposal was made with. The
classes in `WordsDAOs` take exactly these steps, reading votes from the token by
bisection.

**Images.** `Images` and `PngCollectionEncoder` encode pictures over a shared
palette; `ImageEncodings` is the encoding as a function of the colour indices.
`CodecRoundTrip` proves exactly which images survive encoding, decoding and
painting, and `StoredImages` that stored images render on-chain. `SvgText` and
`MultiPartRLEToSVG` are the two renderers, proved to write the same document.
`SvgReader` reads a document back by element and attribute names, and shows that it
paints the decoded images at ten units to the pixel; `StoredImages` concludes that the
document of a stored image draws the picture it was made from.

**Auction house.** `WordsAuctionHouses` is the escrow over one auction, joined to the
token. `Valid` holds the books (the house has the leading bid of a running auction
and nothing else but ETH forced on it) and the ownership of the word for sale,
also while other accounts use the token.

**Indexers.** `Subgraph` replays the token's log in an entity store with loaded
copies; `IndexAgreement` compares it with the token, whose log tells owners, balances
and votes (`EventLog`). `LogFilters` prints and parses
filter keys.

Where the code and its comments disagree the code is followed: `execute` does not
check the eta itself, each action does; the encoder's first and last runs are taken
as margins whatever their colour; the auction house pauses on any mint that reverts
with a reason, an unclaimed reward included, not only after a change of the minter.

An external call is a method that returns how it ended: success, a revert with a
reason, or a panic. A revert puts back everything the call wrote. The sender, the
block number and the time are parameters or fields that only `NextBlock` advances.

## Model

| member | source | states |
|---|---|---|
| Ledgers.MovedVotes | packages/words-contracts/contracts/base/ERC721Checkpointable.sol:97-106 | counting votes as the words each account represents, moving, minting or burning one word moves exactly one vote between the representatives of its two ends |
| Ledgers.DelegatedVotes | packages/words-contracts/contracts/base/ERC721Checkpointable.sol:197-208 | a delegation moves the delegator's whole balance from its old representative to the account named, even when that is the zero address |
| Ledgers.DelegationConserves | packages/words-contracts/contracts/base/ERC721Checkpointable.sol:112-144 | votes stay conserved under a delegation if and only if the delegatee is not zero or the delegator owns nothing |
| Ledgers.ForfeitExample | packages/words-contracts/contracts/base/ERC721Checkpointable.sol:126-144 | a concrete ledger in which a signed delegation to the zero address leaves an owner representing itself without a vote |
| Ledgers.VotesAtMostSupply | packages/words-contracts/contracts/base/ERC721Checkpointable.sol:210-230 | no set of accounts ever has more votes than there are words, in any ledger |
| Ledgers.VotesAndForfeitsMakeSupply | packages/words-contracts/contracts/base/ERC721Checkpointable.sol:88-106 | all votes plus all forfeited votes are the total supply; with nothing forfeited, votes are conserved |
| Checkpoints.LookupBracket | packages/words-contracts/contracts/base/ERC721Checkpointable.sol:181-194 | bisection may stop where two neighbouring checkpoints bracket the block |
| Checkpoints.WrittenLookup | packages/words-contracts/contracts/base/ERC721Checkpointable.sol:232-248 | writing in the current block keeps the strict order of checkpoints and every answer about earlier blocks, overwriting in the same block included |
| Checkpoints.MovedTrailReplays | packages/words-contracts/contracts/base/ERC721Checkpointable.sol:210-230 | if the ledger moves the same votes, the account's checkpoints replay the new ledger and the whole history before it |
| Checkpoints.NextBlockReplays | packages/words-contracts/contracts/base/ERC721Checkpointable.sol:156-164 | when a block ends, looking it up gives the votes at its end |
| EventLog.TellsMoved | packages/words-contracts/contracts/base/ERC721.sol:373-391 | one transfer event for a transfer or a burn keeps the log telling who owns which word, how many each account owns, and the supply |
| EventLog.TellsMinted | packages/words-contracts/contracts/base/ERC721.sol:334-335 | so do the two transfer events of a mint, to the creator and on to the receiver |
| ERC721Checkpointables.ERC721Checkpointable.GetCurrentVotes | packages/words-contracts/contracts/base/ERC721Checkpointable.sol:151-154 | the current votes are the words backing the account less the votes it forfeited |
| ERC721Checkpointables.ERC721Checkpointable.GetPriorVotes | packages/words-contracts/contracts/base/ERC721Checkpointable.sol:163-195 | in every state, bisection returns exactly the votes the account had at the end of the block, for every block before the current one, and fails for any other |
| ERC721Checkpointables.ERC721Checkpointable.WriteCheckpoint | packages/words-contracts/contracts/base/ERC721Checkpointable.sol:232-251 | one account's checkpoints change, by overwriting or appending; exactly when the block number or the counter does not fit it fails |
| ERC721Checkpointables.ERC721Checkpointable.MoveCheckpoints | packages/words-contracts/contracts/base/ERC721Checkpointable.sol:210-230 | the checkpoints of every account after a vote move, the events announced, and exactly how it fails |
| ERC721Checkpointables.ERC721Checkpointable.MoveDelegates | packages/words-contracts/contracts/base/ERC721Checkpointable.sol:210-230 | checkpoints that replayed the ledger before a vote move replay the ledger after it, and the log stays faithful |
| ERC721Checkpointables.ERC721Checkpointable.DelegateVotes | packages/words-contracts/contracts/base/ERC721Checkpointable.sol:197-208 | after the delegatee is stored and the votes are moved, the checkpoints replay the delegated ledger |
| ERC721Checkpointables.ERC721Checkpointable.EmitTransfer | packages/words-contracts/contracts/base/ERC721.sol:334-335 | a transfer event changes the announced balances of its two ends and nothing else |
| ERC721Checkpointables.ERC721Checkpointable.NextBlock | packages/words-contracts/contracts/base/ERC721Checkpointable.sol:163-164 | the ledger of the block that ends becomes the history that prior votes are read from |
| ERC721Checkpointables.MovedDescribes | packages/words-contracts/contracts/base/ERC721Checkpointable.sol:210-251 | for all accounts at once: moved checkpoints and the extended log describe the ledger after the move |
| Enumeration.PopLists | packages/words-contracts/contracts/base/ERC721Enumerable.sol:143-161 | swap-and-pop leaves slots 0 to balance - 2 listing exactly the remaining words once each, with the inverse index, also when the last or only word goes |
| Enumeration.PopListsOwners | packages/words-contracts/contracts/base/ERC721Enumerable.sol:143-161 | removing a word from its owner's list leaves every account's list exact |
| Enumeration.PushListsOwners | packages/words-contracts/contracts/base/ERC721Enumerable.sol:120-124 | adding a word to an account's list leaves every account's list exact |
| Enumeration.PopListsAll | packages/words-contracts/contracts/base/ERC721Enumerable.sol:168-186 | the global array and its inverse list exactly the remaining words, although the swap is made for the last word too |
| Enumeration.PushListsAll | packages/words-contracts/contracts/base/ERC721Enumerable.sol:130-133 | the global array and its inverse list exactly the words and the new one |
| ERC721Enumerables.HookedDescribes | packages/words-contracts/contracts/base/ERC721Enumerable.sol:96-113 | after the hook both lists describe ownership after the move, for mints, burns, transfers and self-transfers, although balances are those before it |
| ERC721Enumerables.ERC721Enumerable.BeforeTokenTransfer | packages/words-contracts/contracts/base/ERC721Enumerable.sol:96-113 | which of the four list operations run for each kind of move, from the balances before it |
| ERC721Enumerables.ERC721Enumerable.RemoveTokenFromOwnerEnumeration | packages/words-contracts/contracts/base/ERC721Enumerable.sol:143-161 | the owner list and index become the swap-and-popped ones |
| ERC721Enumerables.ERC721Enumerable.RemoveTokenFromAllTokensEnumeration | packages/words-contracts/contracts/base/ERC721Enumerable.sol:168-186 | the global array and index become the swap-and-popped ones |
| ERC721Enumerables.ERC721Enumerable.AddTokenToOwnerEnumeration | packages/words-contracts/contracts/base/ERC721Enumerable.sol:120-124 | the word takes the slot after the last |
| ERC721Enumerables.ERC721Enumerable.AddTokenToAllTokensEnumeration | packages/words-contracts/contracts/base/ERC721Enumerable.sol:130-133 | the word is appended with its position |
| ERC721Enumerables.ERC721Enumerable.TokenOfOwnerByIndex | packages/words-contracts/contracts/base/ERC721Enumerable.sol:61-64 | succeeds exactly for a non-zero account and an index below its balance, with a word the account owns whose index is the one asked for |
| ERC721Enumerables.ERC721Enumerable.TotalSupply | packages/words-contracts/contracts/base/ERC721Enumerable.sol:69-71 | the length of the global array is the number of words that exist |
| ERC721Enumerables.ERC721Enumerable.TokenByIndex | packages/words-contracts/contracts/base/ERC721Enumerable.sol:76-79 | succeeds exactly below the supply, with an existing word whose index is the one asked for |
| MintSchedule.NextIdClosed | packages/words-contracts/contracts/WordsToken.sol:149-154 | after n mints the id counter is n + min(183, ceil(n / 9)) |
| MintSchedule.NextIdIncreasing | packages/words-contracts/contracts/WordsToken.sol:149-154 | later mints use larger ids |
| MintSchedule.MintOf | packages/words-contracts/contracts/WordsToken.sol:149-154 | every id below the counter was minted, for auction if and only if it is not a multiple of ten up to 1820 |
| MintSchedule.MintOnce | packages/words-contracts/contracts/WordsToken.sol:149-154 | no id is ever minted twice |
| WordsTokens.WordsToken.BeforeTokenTransfer | packages/words-contracts/contracts/base/ERC721Checkpointable.sol:97-106 | when the hook succeeds, lists, checkpoints and vote events already describe the ledger after the move while owners and balances are still those before |
| WordsTokens.WordsToken.WriteOwnership | packages/words-contracts/contracts/base/ERC721.sol:386-388 | the balance mapping counts the owners mapping after the move |
| WordsTokens.WordsToken.MintWord | packages/words-contracts/contracts/base/ERC721.sol:321-336 | minting an existing word or to the zero address fails; otherwise the contract is consistent with the ledger with the word moved to its new owner, and two transfers are announced |
| WordsTokens.WordsToken.BurnWord | packages/words-contracts/contracts/base/ERC721.sol:348-360 | burning is a move to the zero address that clears the approval |
| WordsTokens.WordsToken.TransferWord | packages/words-contracts/contracts/base/ERC721.sol:373-391 | only the owner can be the sender; the word moves and its approval is cleared |
| WordsTokens.WordsToken.TransferFrom | packages/words-contracts/contracts/base/ERC721.sol:182-191 | exactly when a transfer succeeds; then one word changed hands and everything stored is again consistent, otherwise nothing changed |
| WordsTokens.WordsToken.Approve | packages/words-contracts/contracts/base/ERC721.sol:141-151 | exactly when an approval succeeds, and that it changes one entry |
| WordsTokens.WordsToken.SetApprovalForAll | packages/words-contracts/contracts/base/ERC721.sol:165-170 | only approving oneself fails |
| WordsTokens.WordsToken.BalanceOf | packages/words-contracts/contracts/base/ERC721.sol:91-94 | the balance is the number of words owned; the zero address has none to query |
| WordsTokens.WordsToken.Burn | packages/words-contracts/contracts/WordsToken.sol:159-162 | only the minter burns |
| WordsTokens.WordsToken.MintNext | packages/words-contracts/contracts/WordsToken.sol:255-262 | the id at the counter was never owned, and goes to the receiver |
| WordsTokens.WordsToken.MintBoth | packages/words-contracts/contracts/WordsToken.sol:149-154 | the reward and the auctioned word: which ids are minted to whom, and when both mints succeed |
| WordsTokens.WordsToken.Mint | packages/words-contracts/contracts/WordsToken.sol:149-154 | a mint by the minter gives a reward first exactly at a reward id, then the scheduled id to the minter; within the integer widths it succeeds unless a reward is due and its receiver is the zero address; a failure undoes both |
| WordsTokens.WordsToken.DelegateTo | packages/words-contracts/contracts/base/ERC721Checkpointable.sol:197-208 | exactly how a delegation ends, and the ledger after it |
| WordsTokens.WordsToken.Delegate | packages/words-contracts/contracts/base/ERC721Checkpointable.sol:112-115 | delegating in person never forfeits votes |
| WordsTokens.WordsToken.DelegateBySig | packages/words-contracts/contracts/base/ERC721Checkpointable.sol:126-144 | valid signatory, current nonce and open expiry are needed; the delegatee is taken as signed, and a failure restores the nonce |
| WordsTokens.WordsToken.GetPriorVotes | packages/words-contracts/contracts/base/ERC721Checkpointable.sol:163-195 | at contract level: the recorded history's votes for every past block |
| WordsTokens.TrailLength | packages/words-contracts/contracts/base/ERC721Checkpointable.sol:232-248 | an account never has more checkpoints than there were blocks |
| WordsTokens.Writable | packages/words-contracts/contracts/base/ERC721Checkpointable.sol:232-251 | within the block number's width a checkpoint can be written for every account, and its last one holds the votes of the account |
| WordsTokens.BlockTooWide | packages/words-contracts/contracts/base/ERC721Checkpointable.sol:232-241 | from block 2^32 on, only moves between accounts with one representative succeed |
| WordsTokens.MoveSucceeds | packages/words-contracts/contracts/base/ERC721Checkpointable.sol:210-221 | within the integer widths, moving a word succeeds if its owner's representative has a vote to give or none has to move, and else reverts with a reason; with nothing forfeited it always has |
| WordsTokens.TransferSucceeds | packages/words-contracts/contracts/base/ERC721.sol:182-191 | within the integer widths, exactly who can transfer which word: its owner, the account approved for it, an operator of the owner, or the owner's proxy, to anyone but the zero address, unless the vote is missing |
| WordsTokens.ApprovedTransfers | packages/words-contracts/contracts/base/ERC721.sol:141-151 | a run: the account an owner approves transfers the word, and once it did it cannot transfer it again from a stranger |
| WordsTokens.OperatorTransfers | packages/words-contracts/contracts/base/ERC721.sol:165-170 | a run: an operator of the owner transfers any of its words |
| WordsTokens.DelegateSucceeds | packages/words-contracts/contracts/base/ERC721Checkpointable.sol:197-221 | within the integer widths a delegation succeeds if and only if the representative stays the same or has the delegator's whole balance in votes; with nothing forfeited it always has |
| WordsTokens.RefusedRedelegation | packages/words-contracts/contracts/base/ERC721Checkpointable.sol:126-144 | a run of the contract after which an owner that signed its votes away cannot delegate to any other account |
| WordsTokens.MintSucceeds | packages/words-contracts/contracts/base/ERC721.sol:321-336 | within the integer widths the hook never refuses a mint to a non-zero account |
| GovernanceProofs.StepEdge | packages/words-contracts/contracts/governance/WordsDAOLogicV1.sol:421-443 | every call and every new block moves a proposal only along the allowed transitions between the nine states |
| GovernanceProofs.VotedTally | packages/words-contracts/contracts/governance/WordsDAOLogicV1.sol:496-523 | after a vote each tally is again the sum of the receipts with that support |
| GovernanceProofs.TalliesAddUp | packages/words-contracts/contracts/governance/WordsDAOLogicV1.sol:496-523 | the three tallies together are the sum of all receipts |
| GovernanceProofs.TalliesWithinSupply | packages/words-contracts/contracts/governance/WordsDAOLogicV1.sol:507-516 | if all receipts were weighed at one block, all votes together never exceed the supply at its end |
| GovernanceProofs.StepOldProposal | packages/words-contracts/contracts/governance/WordsDAOLogicV1.sol:496-523 | every step keeps a proposal's tallies, receipts, timelock times and shape right |
| GovernanceProofs.StepReceipts | packages/words-contracts/contracts/governance/WordsDAOLogicV1.sol:507-520 | a receipt holds the votes its voter had at the block it was weighed at, for ever |
| GovernanceProofs.StepNewProposal | packages/words-contracts/contracts/governance/WordsDAOLogicV1.sol:213-237 | a new proposal has an action, at most ten, and a voting window of at least the minimum period |
| GovernanceProofs.SharePart | packages/words-contracts/contracts/governance/WordsDAOLogicV1.sol:672-674 | basis points of a number, rounded down: 10000 votes <= bps supply < 10000 (votes + 1) |
| GovernanceProofs.StepTerms | packages/words-contracts/contracts/governance/WordsDAOLogicV1.sol:213-237 | every step keeps a proposal as it was made: proposer, actions, window, and threshold and quorum as shares of the supply of then |
| GovernanceProofs.StepOnlyLatestOpen | packages/words-contracts/contracts/governance/WordsDAOLogicV1.sol:200-211 | only a proposer's latest proposal can be open, although only the latest is checked |
| GovernanceProofs.StepLatestOwned | packages/words-contracts/contracts/governance/WordsDAOLogicV1.sol:237 | the latest proposal recorded for a proposer is its own |
| GovernanceRuns.StepQueueOwned | packages/words-contracts/contracts/governance/WordsDAOExecutor.sol:107-162 | every pending timelock transaction belongs to a queued proposal that is not executed, canceled or vetoed |
| GovernanceRuns.StepInv | packages/words-contracts/contracts/governance/WordsDAOLogicV1.sol:174-382 | every call keeps the invariant that the run theorems rest on |
| GovernanceRuns.Terminal | packages/words-contracts/contracts/governance/WordsDAOLogicV1.sol:421-443 | in every run, an executed or vetoed proposal stays so |
| GovernanceRuns.NeverQueuedAgain | packages/words-contracts/contracts/governance/WordsDAOLogicV1.sol:274-290 | in every run, a proposal that was queued, defeated or stopped can never be queued again |
| GovernanceRuns.OneOpenProposal | packages/words-contracts/contracts/governance/WordsDAOLogicV1.sol:200-211 | each proposer has at most one pending or active proposal |
| GovernanceRuns.ExecutedProposal | packages/words-contracts/contracts/governance/WordsDAOLogicV1.sol:312-329 | an executed proposal finished voting, passed with votes for reaching the quorum's share of the supply at its creation, waited at least two days after queueing, ran from its eta on and before eta plus fourteen days, with the actions it was made with, was never canceled or vetoed, and reports Executed |
| GovernanceRuns.StepWeighsCreation | packages/words-contracts/contracts/governance/WordsDAOLogicV1.sol:507-508 | a proposal goes on being weighed at its creation block if and only if the voting delay is not changed while this proposal is pending or active |
| GovernanceRuns.StepWeighed | packages/words-contracts/contracts/governance/WordsDAOLogicV1.sol:507-508 | every receipt stays weighed at the creation block if and only if a vote on the proposal finds the delay it was made with |
| GovernanceRuns.VotesWithinSupply | packages/words-contracts/contracts/governance/WordsDAOLogicV1.sol:496-523 | in every run that does not change the voting delay while this proposal is pending or active, its votes never exceed the supply at the end of its creation block, whatever happens to the token and to other proposals |
| GovernanceRuns.CancelKeepsPending | packages/words-contracts/contracts/governance/WordsDAOLogicV1.sol:335-382 | canceling or vetoing leaves every live proposal fully queued if and only if no other live proposal shares a transaction with it |
| GovernanceRuns.FirstCancelSharesNothing | packages/words-contracts/contracts/governance/WordsDAOLogicV1.sol:335-382 | a proposal canceled or vetoed for the first time shares no transaction with a live one |
| GovernanceRuns.RepeatStripsTwin | packages/words-contracts/contracts/governance/WordsDAOLogicV1.sol:335-382 | a state within the invariant, every live proposal fully queued, in which canceling a canceled proposal again strips another one of its transaction |
| GovernanceRuns.StepOneOwner | packages/words-contracts/contracts/governance/WordsDAOLogicV1.sol:294-306 | no two live proposals own the same transaction |
| GovernanceRuns.RunPending | packages/words-contracts/contracts/governance/WordsDAOLogicV1.sol:274-382 | in every run without a second cancel or veto of one proposal, every live proposal has all its distinct actions pending and owns them alone |
| GovernanceRuns.ExecuteSucceeds | packages/words-contracts/contracts/governance/WordsDAOExecutor.sol:142-162 | then executing a queued proposal succeeds if and only if its eta has come and no target fails: it is never refused as unqueued or stale |
| GovernanceAcceptance.StatesExactly | packages/words-contracts/contracts/governance/WordsDAOLogicV1.sol:421-443 | each of the nine states, in terms of what is stored, whatever is asked first |
| GovernanceAcceptance.VoteAccepted | packages/words-contracts/contracts/governance/WordsDAOLogicV1.sol:496-508 | exactly when a vote is accepted: in the block window, once for each voter, for one of three choices |
| GovernanceAcceptance.QueueAccepted | packages/words-contracts/contracts/governance/WordsDAOLogicV1.sol:274-306 | exactly when a proposal can be queued: voting ended and passed, not queued before, actions pairwise different and none pending |
| GovernanceAcceptance.ExecuteAccepted | packages/words-contracts/contracts/governance/WordsDAOLogicV1.sol:312-329 | exactly when a proposal can be executed: standing, queued, from its eta on and before eta plus fourteen days, and no target fails |
| GovernanceAcceptance.CancelAccepted | packages/words-contracts/contracts/governance/WordsDAOLogicV1.sol:335-343 | exactly who can cancel, and until when |
| GovernanceAcceptance.VetoAccepted | packages/words-contracts/contracts/governance/WordsDAOLogicV1.sol:363-366 | exactly who can veto, and until when |
| GovernanceAcceptance.ProposeAccepted | packages/words-contracts/contracts/governance/WordsDAOLogicV1.sol:183-211 | exactly who can propose: more votes than the threshold's share of the supply, one to ten well-formed actions, and no other proposal pending or active, although only the latest is asked for |
| GovernanceAcceptance.SettingAccepted | packages/words-contracts/contracts/governance/WordsDAOLogicV1.sol:529-590 | the bounds of the four settings and of the timelock's delay, in numbers |
| GovernanceAcceptance.AsProposed | packages/words-contracts/contracts/governance/WordsDAOLogicV1.sol:213-237 | in every state a proposal has the proposer and actions of the call that made it, its voting window from the settings of then, and quorum and threshold as shares of the supply of then |
| GovernanceAcceptance.TermsOfNew | packages/words-contracts/contracts/governance/WordsDAOLogicV1.sol:174-237 | those terms are the settings, block and supply in which the call was made |
| GovernanceAcceptance.TermsKept | packages/words-contracts/contracts/governance/WordsDAOLogicV1.sol:213-237 | and no run changes them |
| GovernanceAcceptance.BackedNotCanceled | packages/words-contracts/contracts/governance/WordsDAOLogicV1.sol:335-343 | along every run, a proposal whose proposer had the threshold's votes at the end of every block and did not cancel it is not canceled |
| GovernanceAcceptance.OnlyVetoerVetoes | packages/words-contracts/contracts/governance/WordsDAOLogicV1.sol:363-366 | along every run without a veto by the vetoer, or without a vetoer, a proposal is not vetoed |
| WordsDAOs.WordsDAOExecutor.SetDelay | packages/words-contracts/contracts/governance/WordsDAOExecutor.sol:80-87 | only the timelock itself sets a delay between two and thirty days |
| WordsDAOs.WordsDAOExecutor.QueueTransaction | packages/words-contracts/contracts/governance/WordsDAOExecutor.sol:107-125 | only the admin queues, with an eta no sooner than the delay |
| WordsDAOs.WordsDAOExecutor.CancelTransaction | packages/words-contracts/contracts/governance/WordsDAOExecutor.sol:127-140 | only the admin cancels; the transaction is no longer pending |
| WordsDAOs.WordsDAOExecutor.ExecuteTransaction | packages/words-contracts/contracts/governance/WordsDAOExecutor.sol:142-179 | needs the admin, a pending transaction, its time window and a successful call; otherwise nothing changes |
| WordsDAOs.TokenSound | packages/words-contracts/contracts/base/ERC721Checkpointable.sol:163-195 | the token never reports negative votes, now or for a past block |
| WordsDAOs.WordsDAO.QueueAll | packages/words-contracts/contracts/governance/WordsDAOLogicV1.sol:281-306 | all actions are queued if and only if they are distinct and none was pending |
| WordsDAOs.WordsDAO.ExecuteAll | packages/words-contracts/contracts/governance/WordsDAOLogicV1.sol:319-327 | all actions run if and only if they are distinct, pending, in their time window and no call fails |
| WordsDAOs.WordsDAO.ExecuteMarked | packages/words-contracts/contracts/governance/WordsDAOLogicV1.sol:319-327 | the actions run with the proposal already marked executed; any refusal restores the mark and the timelock |
| WordsDAOs.WordsDAO.CancelAll | packages/words-contracts/contracts/governance/WordsDAOLogicV1.sol:346-354 | no action of the proposal stays pending |
| WordsDAOs.WordsDAO.State | packages/words-contracts/contracts/governance/WordsDAOLogicV1.sol:421-443 | the state of the machine's proposal; unknown ids revert |
| WordsDAOs.WordsDAO.CheckProposal | packages/words-contracts/contracts/governance/WordsDAOLogicV1.sol:183-211 | exactly the proposals the machine allows pass the requirements, with the threshold weighed one block back |
| WordsDAOs.WordsDAO.NewProposal | packages/words-contracts/contracts/governance/WordsDAOLogicV1.sol:213-235 | the proposal stored has the settings and the supply of now |
| WordsDAOs.WordsDAO.Propose | packages/words-contracts/contracts/governance/WordsDAOLogicV1.sol:174-268 | takes exactly the machine's propose step, or changes nothing |
| WordsDAOs.WordsDAO.Queue | packages/words-contracts/contracts/governance/WordsDAOLogicV1.sol:274-292 | takes exactly the machine's queue step, or changes nothing, the timelock included |
| WordsDAOs.WordsDAO.Execute | packages/words-contracts/contracts/governance/WordsDAOLogicV1.sol:312-329 | takes exactly the machine's execute step, or changes nothing, the timelock included |
| WordsDAOs.WordsDAO.CheckCancel | packages/words-contracts/contracts/governance/WordsDAOLogicV1.sol:335-343 | the proposer may cancel, and anyone once the proposer's votes fell below the threshold |
| WordsDAOs.WordsDAO.Cancel | packages/words-contracts/contracts/governance/WordsDAOLogicV1.sol:335-357 | takes exactly the machine's cancel step, or changes nothing |
| WordsDAOs.WordsDAO.Veto | packages/words-contracts/contracts/governance/WordsDAOLogicV1.sol:363-382 | takes exactly the machine's veto step, or changes nothing |
| WordsDAOs.WordsDAO.WeighVote | packages/words-contracts/contracts/governance/WordsDAOLogicV1.sol:496-508 | a vote weighs what the voter had at the end of the block the current voting delay before the start |
| WordsDAOs.WordsDAO.CastVote | packages/words-contracts/contracts/governance/WordsDAOLogicV1.sol:496-523 | takes exactly the machine's vote step, or changes nothing |
| WordsDAOs.WordsDAO.SetVotingDelay | packages/words-contracts/contracts/governance/WordsDAOLogicV1.sol:529-539 | only the admin, within bounds |
| WordsDAOs.WordsDAO.SetVotingPeriod | packages/words-contracts/contracts/governance/WordsDAOLogicV1.sol:545-555 | only the admin, within bounds |
| WordsDAOs.WordsDAO.TokenStep | packages/words-contracts/contracts/base/ERC721Checkpointable.sol:88-144 | whatever transfers, mints, burns and delegations do to the token between two calls of the governor is a step that keeps its invariant |
| RunLength.ExpandAppend | packages/words-sdk/src/image/image.ts:121-136 | appending a pixel to the runs appends it to the pixels they stand for |
| RunLength.RunsExpand | packages/words-sdk/src/image/image.ts:121-136 | the runs of a row stand for exactly its pixels, are not empty, and neighbours differ |
| ImageEncodings.VerticalMeaning | packages/words-sdk/src/image/image.ts:142-162 | what the top and bottom bounds are after any number of rows: row 0 never sets them, and an opaque last row loses the bottom unless it is row 31 |
| ImageEncodings.EncodedIsBytes | packages/words-sdk/src/image/image.ts:190-232 | when the bounds fit a byte, the string written is the hex of a header and the runs' bytes |
| Hex.PaddedByte | packages/words-sdk/src/image/utils.ts:6-8 | a padded byte is its two hex digits |
| Hex.CaseIgnored | packages/words-sdk/src/image/svg-builder.ts:7-27 | a hex digit is read in either case |
| Hex.RgbMeaning | packages/words-sdk/src/image/utils.ts:16-18 | of the six digits of a colour the first pair is red, the second green and the third blue |
| Hex.RgbInjective | packages/words-sdk/src/image/utils.ts:16-18 | colours with byte components have different six-digit names |
| Images.PixelsKept | packages/words-sdk/src/image/image.ts:79-85 | an image keeps all its colour indices when the palette grows |
| Images.Image.AppendPixelToRect | packages/words-sdk/src/image/image.ts:121-136 | one row gains one pixel, creating the row if needed |
| Images.Image.UpdateImageBounds | packages/words-sdk/src/image/image.ts:142-168 | the bounds take one step and the row gets its own bounds |
| Images.Image.DeleteEmptyRows | packages/words-sdk/src/image/image.ts:174-184 | only rows between the bounds are left |
| Images.Image.AppendRow | packages/words-sdk/src/image/image.ts:74-88 | the row's runs are those of its colour indices, and every colour of it is in the palette, transparent pixels included |
| Images.Image.ScanRows | packages/words-sdk/src/image/image.ts:74-90 | rows and bounds after the scan are those of the whole image under the final palette; a row without pixels fails |
| Images.Image.EncodeRows | packages/words-sdk/src/image/image.ts:94-113 | left and right bounds, the early exit and the rows written give the encoding of the image |
| Images.Image.Encode | packages/words-sdk/src/image/image.ts:70-114 | fails exactly on an image with rows but no columns; otherwise the result is the encoding of all pixels under the palette as it stands afterwards, which only grew |
| Images.Image.ToRLE | packages/words-sdk/src/image/image.ts:55-63 | encodes once and returns the stored result afterwards |
| SvgBuilder.DecodeHex | packages/words-sdk/src/image/svg-builder.ts:7-27 | decoding the hex string of some bytes gives their header and runs |
| CodecRows.TrimExpand | packages/words-sdk/src/image/image.ts:203-232 | trimming a row's runs to the bounds leaves exactly the pixels between them |
| CodecRows.RowBytesPairs | packages/words-sdk/src/image/image.ts:203-232 | the bytes written for a row are its trimmed runs |
| CodecRows.PaintStretch | packages/words-sdk/src/image/svg-builder.ts:44-64 | runs that end at the right bound paint one stretch of a row, and painting goes on in the next row |
| CodecRoundTrip.BoundsCut | packages/words-sdk/src/image/image.ts:97-98 | the left and right bounds cut into every kept row's first and last runs only |
| CodecRoundTrip.DecodesBack | packages/words-sdk/src/image/svg-builder.ts:7-27 | every encoding is well formed and decodes to the bounds and runs written |
| CodecRoundTrip.WindowPainted | packages/words-sdk/src/image/svg-builder.ts:35-65 | decoding paints exactly the opaque pixels inside the encoded bounds |
| CodecRoundTrip.RoundTrip | packages/words-sdk/src/image/image.ts:70-232 | with transparent outer columns and good rows the image comes back, every pixel and nothing else |
| CodecRoundTrip.RoundTripNeedsMargins | packages/words-sdk/src/image/image.ts:142-168 | without them some opaque pixel is lost |
| CodecRoundTrip.RoundTripExactly | packages/words-sdk/src/image/image.ts:70-232 | encoding, decoding and painting gives back the image if and only if the outer columns are transparent and row 0 alone is used or row 0 and, unless it is row 31, the last row are transparent |
| PngCollectionEncoder.PNGCollectionEncoder.EncodeImage | packages/words-sdk/src/image/png-collection-encoder.ts:35-46 | after any number of images, every stored image is the encoding of its picture under the palette of now; what cannot be encoded is not stored, and only colours of the picture enter the palette |
| PngCollectionEncoder.IndexMeaning | packages/words-sdk/src/image/image.ts:79-85 | a pixel's index is non-zero exactly when it is opaque, and then the palette gives its colour back |
| PngCollectionEncoder.StoredImageRoundTrips | packages/words-sdk/src/image/png-collection-encoder.ts:35-46 | for every image ever stored, painting it with the final palette gives the picture if and only if the picture has its margins |
| SvgText.PartText | packages/words-sdk/src/image/svg-builder.ts:41-65 | the joined rectangles of a part are those of its runs in order |
| SvgText.BuildSVG | packages/words-sdk/src/image/svg-builder.ts:35-71 | the whole document off-chain |
| SvgText.LookupIsDecimal | packages/words-contracts/contracts/libs/MultiPartRLEToSVG.sol:72-78 | the on-chain table holds ten times its index in decimal |
| MultiPartRLEToSVG.DecodeRLEImage | packages/words-contracts/contracts/libs/MultiPartRLEToSVG.sol:140-156 | succeeds exactly on a header and whole runs, with the runs in order |
| MultiPartRLEToSVG.GetChunk | packages/words-contracts/contracts/libs/MultiPartRLEToSVG.sol:124-135 | the rectangles in the first slots of the buffer |
| MultiPartRLEToSVG.BufferRun | packages/words-contracts/contracts/libs/MultiPartRLEToSVG.sol:91-97 | adds one rectangle to the buffered text, or panics exactly when a length, coordinate or colour is out of range |
| MultiPartRLEToSVG.RendersExactly | packages/words-contracts/contracts/libs/MultiPartRLEToSVG.sol:67-156 | what the renderer can draw, spelled out: at most 255 parts of five bytes and whole runs, drawn runs within 32 by 32 and with a colour of the palette the part names |
| MultiPartRLEToSVG.RenderPart | packages/words-contracts/contracts/libs/MultiPartRLEToSVG.sol:80-116 | flushing a sixteen-slot buffer writes exactly the runs' rectangles in order |
| MultiPartRLEToSVG.GenerateSVGRects | packages/words-contracts/contracts/libs/MultiPartRLEToSVG.sol:67-118 | succeeds exactly on at most 255 parts that decode and are in range |
| MultiPartRLEToSVG.GenerateSVG | packages/words-contracts/contracts/libs/MultiPartRLEToSVG.sol:47-61 | the whole document on-chain |
| MultiPartRLEToSVG.SameText | packages/words-contracts/contracts/libs/MultiPartRLEToSVG.sol:67-156 | part by part, bytes on-chain and hex off-chain give the same text |
| MultiPartRLEToSVG.RenderersAgree | packages/words-contracts/contracts/libs/MultiPartRLEToSVG.sol:47-156 | whenever the on-chain renderer succeeds on parts with palette 0, both renderers write the same document |
| SvgReader.ReadRect | packages/words-sdk/src/image/svg-builder.ts:53-57 | read back by attribute names, a rectangle has the width, position and fill written, and the height 10 |
| SvgReader.HeaderRead | packages/words-contracts/contracts/libs/MultiPartRLEToSVG.sol:47-61 | read back, the document is 320 by 320 units with a full background |
| SvgReader.ImageRead | packages/words-sdk/src/image/svg-builder.ts:41-65 | read back, the rectangles of an image paint the decoded image at ten units to the pixel in the palette's colours |
| SvgReader.BuiltDraws | packages/words-sdk/src/image/svg-builder.ts:35-71 | the off-chain document draws all parts, one over the other |
| SvgReader.GeneratedDraws | packages/words-contracts/contracts/libs/MultiPartRLEToSVG.sol:47-156 | so does the on-chain document, each part with the palette it names, whenever it is generated |
| StoredImages.EncodedImageRenders | packages/words-contracts/contracts/libs/MultiPartRLEToSVG.sol:80-116 | every encoding of an image of at most 32 by 32 pixels with transparent outer columns renders on-chain without a panic |
| StoredImages.StoredImageRenders | packages/words-contracts/contracts/libs/MultiPartRLEToSVG.sol:80-116 | so does every image the encoder stored, with its palette as palette 0 |
| StoredImages.StoredImageDrawn | packages/words-sdk/src/image/png-collection-encoder.ts:35-46 | for every image ever stored, the document rendered from it with the final palette paints exactly the opaque pixels of its picture, red, green and blue as they were, if and only if the picture has its margins |
| WordsAuctionHouses.WordsAuctionHouse.SafeTransferETHWithFallback | packages/words-contracts/contracts/WordsAuctionHouse.sol:246-252 | the receiver is paid the amount, in ETH if it takes it and else in WETH, and nobody else is |
| WordsAuctionHouses.LeastBid | packages/words-contracts/contracts/WordsAuctionHouse.sol:110-113 | a bid reaches the leading one plus its increment if and only if 100 (bid - amount) > amount p - 100 |
| WordsAuctionHouses.WordsAuctionHouse.CreateBid | packages/words-contracts/contracts/WordsAuctionHouse.sol:104-136 | exactly which bids are accepted, with the rule that the bid leads and the outbid bidder alone is refunded; the end never moves back and at least the buffer remains; no bid is accepted on a settled auction |
| WordsAuctionHouses.WordsAuctionHouse.TakeBid | packages/words-contracts/contracts/WordsAuctionHouse.sol:116-129 | refund, new leading bid and extension of the end |
| WordsAuctionHouses.WordsAuctionHouse.HandOver | packages/words-contracts/contracts/WordsAuctionHouse.sol:230-234 | the word goes to the leading bidder, or is burned when there is none |
| WordsAuctionHouses.WordsAuctionHouse.SettleInternal | packages/words-contracts/contracts/WordsAuctionHouse.sol:221-241 | needs a started, unsettled auction whose time has come; the leading bid goes to the owner |
| WordsAuctionHouses.WordsAuctionHouse.CreateAuction | packages/words-contracts/contracts/WordsAuctionHouse.sol:197-215 | a new auction is for the scheduled word, just minted to the house and never a reward; a mint that reverts with a reason pauses the house, which within the integer widths happens exactly when a reward is due and has no receiver |
| WordsAuctionHouses.WordsAuctionHouse.SettleAuction | packages/words-contracts/contracts/WordsAuctionHouse.sol:96-98 | only when paused; afterwards the house holds nothing but forced ETH |
| WordsAuctionHouses.WordsAuctionHouse.SettleCurrentAndCreateNewAuction | packages/words-contracts/contracts/WordsAuctionHouse.sol:87-90 | only when not paused and due; within the integer widths it then always succeeds, the old auction is paid out, and a new one runs unless a reward is due and has no receiver, which leaves the house paused; or nothing changed at all, the token included |
| WordsAuctionHouses.WordsAuctionHouse.Pause | packages/words-contracts/contracts/WordsAuctionHouse.sol:144-146 | only the owner, only when not paused |
| WordsAuctionHouses.WordsAuctionHouse.Unpause | packages/words-contracts/contracts/WordsAuctionHouse.sol:153-159 | starts an auction unless one is running, which is never overwritten; within the integer widths it always succeeds for the owner of a paused house, and leaves it paused exactly when an auction is needed but an unclaimed reward keeps it from starting |
| WordsAuctionHouses.WordsAuctionHouse.SetMinBidIncrementPercentage | packages/words-contracts/contracts/WordsAuctionHouse.sol:185-189 | only the owner; another increment starts the count of compounding bids afresh |
| WordsAuctionHouses.WordsAuctionHouse.OutsiderTransfer | packages/words-contracts/contracts/base/ERC721.sol:182-191 | what others transfer meanwhile, which is never the word of a running auction |
| WordsAuctionHouses.WordsAuctionHouse.OutsiderApprove | packages/words-contracts/contracts/base/ERC721.sol:141-151 | what others approve meanwhile, which is never the word of a running auction |
| WordsAuctionHouses.SettlementSucceeds | packages/words-contracts/contracts/WordsAuctionHouse.sol:221-241 | within the integer widths the token never refuses the settlement of a running auction |
| WordsAuctionHouses.BidsCompound | packages/words-contracts/contracts/WordsAuctionHouse.sol:110-113 | n increments of p per cent, rounded down, from a to b: 100^n (p b - 99) >= (100 + p)^n (p a - 99) |
| WordsAuctionHouses.LeadingBidCompounds | packages/words-contracts/contracts/WordsAuctionHouse.sol:110-120 | in every state of the house, the leading bid compounds over the bids accepted since the increment was last set |
| Subgraph.IndexedBalanceMeaning | packages/words-subgraph/src/nouns-erc-721.ts:83-172 | for every log, the indexed balance of an account is its announced balance plus the number of its transfers to itself |
| Subgraph.Store.GetOrCreateAccount | packages/words-subgraph/src/utils/helpers.ts:4-25 | loads or saves a zero account |
| Subgraph.Store.GetOrCreateDelegate | packages/words-subgraph/src/utils/helpers.ts:27-53 | a new delegate changes only the delegate counter of the governance entity |
| Subgraph.Store.HandleDelegateVotesChanged | packages/words-subgraph/src/nouns-erc-721.ts:62-80 | one delegate's votes, and the governance totals |
| Subgraph.Store.HandleDelegateChanged | packages/words-subgraph/src/nouns-erc-721.ts:37-60 | the account names its new delegate, the represented counts move by one, and no votes, balances or counts change |
| Subgraph.Store.HandleTransfer | packages/words-subgraph/src/nouns-erc-721.ts:83-172 | the owner of the word, each end's indexed balance and the holder counts, also when both ends are one account and the copy saved last wins |
| Subgraph.Store.Handle | packages/words-subgraph/src/nouns-erc-721.ts:37-172 | each handler keeps the store in agreement with the log so far |
| Subgraph.Store.Replay | packages/words-subgraph/src/nouns-erc-721.ts:37-172 | replaying any log gives a store in agreement with it |
| IndexAgreement.AccountsAgree | packages/words-subgraph/src/nouns-erc-721.ts:62-172 | replaying the token's log: indexed votes are the votes on the chain, indexed balances differ by transfers between equal ends only |
| IndexAgreement.WordsAgree | packages/words-subgraph/src/nouns-erc-721.ts:83-172 | every indexed owner of a word is its owner on the chain, and the indexed total of token holders is the supply |
| IndexAgreement.CountsAgree | packages/words-subgraph/src/nouns-erc-721.ts:71-76 | the delegate count is the number of accounts with votes; the holder count is short by the holders lost to transfers between equal ends |
| IndexAgreement.TotalAgrees | packages/words-subgraph/src/nouns-erc-721.ts:77-79 | the indexed total plus all forfeited votes is the supply, so with conserved votes it is the supply |
| Strings.SplitJoin | packages/words-webapp/src/utils/logParsing.ts:30-32 | parts without the separator survive joining and splitting |
| LogFilters.KeyStable | packages/words-webapp/src/utils/logParsing.ts:16-41 | for every string: parsing it as a key and printing it again gives it back if and only if it has exactly one colon and no empty topic |
| LogFilters.PrintedKeyStable | packages/words-webapp/src/utils/logParsing.ts:16-41 | so the key of every filter with plain, non-empty topics is stable |
| LogFilters.PrintedKeyParses | packages/words-webapp/src/utils/logParsing.ts:28-41 | such a filter comes back, with null as the NUL string and one-topic lists as the topic |

## Left out

- Signature recovery, typed-data digests and hashes: the signatory is a parameter, the zero address when recovery failed, and a timelock transaction is keyed by its own contents.
- Reentrancy, gas and the effects of proposal targets: a target call or an ETH transfer succeeds or fails as a parameter says, and changes nothing here except the timelock's delay, which is a step of its own.
- Proxies, initialisation guards, admin, vetoer and minter hand-over and the lock flags: each is one branch; the timelock's admin stays the governor and the token's minter stays the auction house.
- Integer widths other than those of checkpoints, the part counter and bytes: 256-bit quantities are unbounded, since no run can reach their bounds.
- Safe transfers' receiver callback, token metadata, seeds and the descriptor: string plumbing around the renderer or opaque calls.
- The two setters for the proposal threshold and quorum are steps of the governance machine without a method of their own.
- Approval events, and the subgraph's word lists, `totalDelegates` and governor handlers: not kept as exact aggregates or copied field by field.
- User interface, bots, API, deployment and generated code.
- WordsTokens.WordsToken.Mint: the seeder is taken to answer; outside the integer widths of block numbers and votes it does not say when minting fails, only that a failure undoes the whole call.
- SvgBuilder.DecodeHex: decoding is modelled on well-formed hex strings only; what the source makes of other characters or half a run is not modelled.
- SvgText.BuildSVG: the off-chain renderer, likewise, is modelled on parts that are well-formed hex.
- CodecRows.RowBytesPairs: says nothing of rows of 256 or more pixels or of colour indices above 255, which the encoder cuts to a byte.
- PngCollectionEncoder.StoredImageRoundTrips: says nothing of pictures wider than 255 or higher than 256 pixels, or palettes of more than 256 colours, which do not fit the format's bytes.
- WordsAuctionHouses.WordsAuctionHouse.SafeTransferETHWithFallback: the WETH contract is taken to deposit and transfer as asked.
