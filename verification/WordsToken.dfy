/** The token contract: ownership, approvals and the mint schedule, over the
    enumerable and checkpointable parts it is made of. */
module WordsTokens {
  import opened Basics
  import opened Ledgers
  import opened Checkpoints
  import opened Enumeration
  import opened EventLog
  import opened MintSchedule
  import opened ERC721Enumerables
  import opened ERC721Checkpointables

  /** What a revert puts back. */
  datatype Storage = Storage(
    owners: map<int, Address>,
    balances: map<Address, nat>,
    tokenApprovals: map<int, Address>,
    currentWordId: nat,
    ownedTokens: Slots,
    ownedTokensIndex: Index,
    allTokens: seq<int>,
    allTokensIndex: Index,
    delegatee: map<Address, Address>,
    checkpoints: map<(Address, nat), Checkpoint>,
    numCheckpoints: map<Address, nat>,
    nonces: map<Address, nat>,
    events: seq<Event>)

  class WordsToken {
    const list: ERC721Enumerable
    const votes: ERC721Checkpointable

    // base/ERC721.sol
    var owners: map<int, Address>
    var balances: map<Address, nat>
    var tokenApprovals: map<int, Address>
    var operatorApprovals: map<(Address, Address), bool>

    // WordsToken.sol
    var contractOwner: Address
    var worddersDAO: Address
    var minter: Address
    var currentWordId: nat
    var proxies: map<Address, Address>

    // history variables
    ghost var forfeited: map<Address, nat>  // votes signed away to the zero address
    ghost var mints: nat                    // successful mints

    /** The ledger this contract is an indexed form of. */
    ghost function L(): Ledger
      reads `owners, `forfeited, votes`delegatee
    {
      Ledger(owners, votes.delegatee, forfeited)
    }

    /** The balance mapping counts the words of `l`. */
    ghost predicate Books(l: Ledger)
      reads `balances
    {
      forall a :: a != ZERO ==> At(balances, a, 0) == l.Balance(a)
    }

    ghost predicate Consistent()
      reads `owners, `balances, `forfeited, list, votes
    {
      && L().Wf()
      && list.Describes(owners)
      && votes.Describes(L())
      && Books(L()) && Tells(votes.events, L())
      && (forall b :: 0 <= b < |votes.history| ==> votes.history[b].Wf())
      && votes.timestamp > 0
    }

    /** What holds between transactions, in every block of every run. */
    ghost predicate Valid()
      reads this, list, votes
    {
      && Consistent()
      && currentWordId == NextId(mints)
      && IdsBelowCounter()
      && ApprovalsExist()
    }

    /** Only words that exist have an approved account. */
    ghost predicate ApprovalsExist()
      reads `owners, `tokenApprovals
    {
      forall id :: At(tokenApprovals, id, ZERO) != ZERO ==> id in owners
    }

    ghost predicate IdsBelowCounter()
      reads `owners, `currentWordId
    {
      forall id :: id in owners ==> 0 <= id < currentWordId
    }

    /** Block numbers fit their 32 bits, and the supply with `n` more words its 96. */
    ghost predicate Room(n: nat)
      reads `owners, votes`blockNumber
    {
      votes.blockNumber < 4_294_967_295 && |owners| + n <= 79_228_162_514_264_337_593_543_950_335
    }

    function Snapshot(): Storage
      reads this, list, votes
    {
      Storage(owners, balances, tokenApprovals, currentWordId,
              list.ownedTokens, list.ownedTokensIndex, list.allTokens, list.allTokensIndex,
              votes.delegatee, votes.checkpoints, votes.numCheckpoints, votes.nonces, votes.events)
    }

    method Reverting(s: Storage)
      modifies `owners, `balances, `tokenApprovals, `currentWordId, list,
               votes`delegatee, votes`checkpoints, votes`numCheckpoints, votes`nonces, votes`events
      ensures Snapshot() == s
    {
      owners, balances, tokenApprovals, currentWordId := s.owners, s.balances, s.tokenApprovals, s.currentWordId;
      list.Restore(s.ownedTokens, s.ownedTokensIndex, s.allTokens, s.allTokensIndex);
      votes.Restore(s.delegatee, s.checkpoints, s.numCheckpoints, s.nonces, s.events);
    }

    twostate lemma RevertedFields()
      requires Snapshot() == old(Snapshot())
      ensures tokenApprovals == old(tokenApprovals) && owners == old(owners) && votes.delegatee == old(votes.delegatee)
      ensures votes.events == old(votes.events) && votes.nonces == old(votes.nonces)
    {
    }

    /** A revert brings back everything that held before. */
    twostate lemma RevertedValid()
      requires old(Valid()) && Snapshot() == old(Snapshot())
      requires forfeited == old(forfeited) && mints == old(mints)
      requires votes.blockNumber == old(votes.blockNumber) && votes.timestamp == old(votes.timestamp)
      requires votes.history == old(votes.history)
      ensures Valid() && L() == old(L())
    {
      assert forall a :: votes.T(a) == old(votes.T(a));
    }

    constructor (contractOwner: Address, worddersDAO: Address, minter: Address, blockNumber: nat, timestamp: nat)
      requires timestamp > 0
      ensures Valid() && fresh(list) && fresh(votes) && L() == EMPTY && mints == 0
      ensures this.contractOwner == contractOwner && this.worddersDAO == worddersDAO && this.minter == minter
      ensures votes.blockNumber == blockNumber && votes.timestamp == timestamp
      ensures tokenApprovals == map[] && operatorApprovals == map[] && proxies == map[]
      ensures currentWordId == 0
    {
      list := new ERC721Enumerable();
      votes := new ERC721Checkpointable(blockNumber, timestamp);
      owners, balances, tokenApprovals, operatorApprovals := map[], map[], map[], map[];
      this.contractOwner, this.worddersDAO, this.minter := contractOwner, worddersDAO, minter;
      currentWordId, proxies := 0, map[];
      forfeited, mints := map[], 0;
      new;
      hide *;
      NewToken(this);
    }

    // -------------------------------------------------------- base/ERC721.sol

    method BalanceOf(owner: Address) returns (r: Outcome, balance: nat)
      requires Valid()
      ensures r == if owner == ZERO then Reverted else Success
      ensures r.Success? ==> balance == |OwnedBy(owners, owner)|
    {
      if owner == ZERO { return Reverted, 0; }
      return Success, At(balances, owner, 0);
    }

    predicate IsApprovedForAll(owner: Address, operator: Address)
      reads this
    {
      At(proxies, owner, ZERO) == operator || At(operatorApprovals, (owner, operator), false)
    }

    /** Who may move an existing word. */
    predicate IsApprovedOrOwner(spender: Address, tokenId: int)
      reads this
    {
      tokenId in owners &&
      (spender == owners[tokenId] || At(tokenApprovals, tokenId, ZERO) == spender
       || IsApprovedForAll(owners[tokenId], spender))
    }

    method Approve(sender: Address, to: Address, tokenId: int) returns (r: Outcome)
      requires Valid() && sender != ZERO
      modifies `tokenApprovals
      ensures Valid()
      ensures r == if tokenId in owners && to != owners[tokenId]
                      && (sender == owners[tokenId] || IsApprovedForAll(owners[tokenId], sender))
                   then Success else Reverted
      ensures tokenApprovals == if r.Success? then old(tokenApprovals)[tokenId := to] else old(tokenApprovals)
    {
      if tokenId !in owners { return Reverted; }
      if to == owners[tokenId] { return Reverted; }
      if !(sender == owners[tokenId] || IsApprovedForAll(owners[tokenId], sender)) { return Reverted; }
      tokenApprovals := tokenApprovals[tokenId := to];
      return Success;
    }

    method SetApprovalForAll(sender: Address, operator: Address, approved: bool) returns (r: Outcome)
      requires Valid() && sender != ZERO
      modifies `operatorApprovals
      ensures Valid()
      ensures r == if operator != sender then Success else Reverted
      ensures operatorApprovals ==
              if r.Success? then old(operatorApprovals)[(sender, operator) := approved] else old(operatorApprovals)
    {
      if operator == sender { return Reverted; }
      operatorApprovals := operatorApprovals[(sender, operator) := approved];
      return Success;
    }

    /** How the hook ends: only the vote move can fail. */
    function HookOutcome(from: Address, to: Address): Outcome
      reads votes
    {
      MoveOutcome(votes.T(votes.Delegates(from)), votes.T(votes.Delegates(to)),
                  votes.Delegates(from), votes.Delegates(to), 1, votes.blockNumber)
    }

    /** The hook runs before balances and owners are written. When it succeeds
        the enumeration, the checkpoints and the vote events already describe
        the ledger after the move, while balances and owners are still those
        before it. */
    method BeforeTokenTransfer(from: Address, to: Address, tokenId: int) returns (r: Outcome)
      requires Consistent()
      requires from == OwnerOf(L(), tokenId) && (tokenId in owners || to != ZERO)
      modifies list, votes`checkpoints, votes`numCheckpoints, votes`events
      ensures r == old(HookOutcome(from, to))
      ensures r.Success? ==> var l' := L().Moved(tokenId, to);
                l'.Wf() && list.Describes(l'.owners) && votes.Describes(l')
      ensures r.Success? ==> Transfers(votes.events) == old(Transfers(votes.events))
    {
      hide Tells, Transfers, MoveOutcome, HookedOwned, HookedAll;
      ghost var l := L();
      HookedDescribes(list.ownedTokens, list.ownedTokensIndex, list.allTokens, list.allTokensIndex, l, tokenId, to);
      HookBalances(balances, l, list.ownedTokens, list.ownedTokensIndex, from, to, tokenId);
      list.BeforeTokenTransfer(from, to, tokenId, balances);
      MovedAll(l, tokenId, to);
      r := votes.MoveDelegates(votes.Delegates(from), votes.Delegates(to), 1, l, l.Moved(tokenId, to));
    }

    /** Writes the new owner and both balances, as minting, burning and
        transferring do after the hook. */
    method WriteOwnership(from: Address, to: Address, tokenId: int, ghost l: Ledger)
      requires L() == l && l.Wf() && from == OwnerOf(l, tokenId) && (tokenId in owners || to != ZERO)
      requires forall a :: a != ZERO ==> At(balances, a, 0) == l.Balance(a)
      modifies `owners, `balances
      ensures L() == l.Moved(tokenId, to)
      ensures forall a :: a != ZERO ==> At(balances, a, 0) == L().Balance(a)
    {
      MovedBalances(l, tokenId, to);
      if from != ZERO {
        balances := balances[from := At(balances, from, 0) - 1];
      }
      if to != ZERO {
        balances := balances[to := At(balances, to, 0) + 1];
        owners := owners[tokenId := to];
      } else {
        owners := owners - {tokenId};
      }
    }

    method MintWord(creator: Address, to: Address, tokenId: int) returns (r: Outcome)
      requires Consistent()
      modifies `owners, `balances, list, votes`checkpoints, votes`numCheckpoints, votes`events
      ensures r == if to == ZERO || tokenId in old(owners) then Reverted else old(HookOutcome(ZERO, to))
      ensures r.Success? ==> Consistent() && L() == old(L()).Moved(tokenId, to)
      ensures r.Success? ==>
                Transfers(votes.events) ==
                old(Transfers(votes.events)) + [Transfer(ZERO, creator, tokenId), Transfer(creator, to, tokenId)]
    {
      hide ERC721Checkpointable.Describes, ERC721Enumerable.Describes, Tells, Transfers;
      if to == ZERO { return Reverted; }
      if tokenId in owners { return Reverted; }
      ghost var l := L();
      r := BeforeTokenTransfer(ZERO, to, tokenId);
      if !r.Success? { return; }
      WriteOwnership(ZERO, to, tokenId, l);
      votes.EmitTransfer(ZERO, creator, tokenId, L());
      votes.EmitTransfer(creator, to, tokenId, L());
      TellsMinted(old(votes.events), votes.events, l, tokenId, creator, to);
    }

    method BurnWord(tokenId: int) returns (r: Outcome)
      requires Consistent()
      modifies `owners, `balances, `tokenApprovals, list, votes`checkpoints, votes`numCheckpoints, votes`events
      ensures r == if tokenId !in old(owners) then Reverted else old(HookOutcome(owners[tokenId], ZERO))
      ensures r.Success? ==> Consistent() && L() == old(L()).Moved(tokenId, ZERO)
      ensures r.Success? ==>
                Transfers(votes.events) ==
                old(Transfers(votes.events)) + [Transfer(old(owners[tokenId]), ZERO, tokenId)]
      ensures tokenApprovals == if r.Success? then old(tokenApprovals)[tokenId := ZERO] else old(tokenApprovals)
    {
      hide ERC721Checkpointable.Describes, ERC721Enumerable.Describes, Tells, Transfers;
      if tokenId !in owners { return Reverted; }
      ghost var l := L();
      var owner := owners[tokenId];
      r := BeforeTokenTransfer(owner, ZERO, tokenId);
      if !r.Success? { return; }
      tokenApprovals := tokenApprovals[tokenId := ZERO];
      WriteOwnership(owner, ZERO, tokenId, l);
      votes.EmitTransfer(owner, ZERO, tokenId, L());
      TellsMoved(old(votes.events), votes.events, l, tokenId, ZERO);
    }

    method TransferWord(from: Address, to: Address, tokenId: int) returns (r: Outcome)
      requires Consistent()
      modifies `owners, `balances, `tokenApprovals, list, votes`checkpoints, votes`numCheckpoints, votes`events
      ensures r == if tokenId !in old(owners) || old(owners[tokenId]) != from || to == ZERO then Reverted
                   else old(HookOutcome(from, to))
      ensures r.Success? ==> Consistent() && L() == old(L()).Moved(tokenId, to)
      ensures r.Success? ==> Transfers(votes.events) == old(Transfers(votes.events)) + [Transfer(from, to, tokenId)]
      ensures tokenApprovals == if r.Success? then old(tokenApprovals)[tokenId := ZERO] else old(tokenApprovals)
    {
      hide ERC721Checkpointable.Describes, ERC721Enumerable.Describes, Tells, Transfers;
      if tokenId !in owners || owners[tokenId] != from || to == ZERO { return Reverted; }
      ghost var l := L();
      r := BeforeTokenTransfer(from, to, tokenId);
      if !r.Success? { return; }
      tokenApprovals := tokenApprovals[tokenId := ZERO];
      WriteOwnership(from, to, tokenId, l);
      votes.EmitTransfer(from, to, tokenId, L());
      TellsMoved(old(votes.events), votes.events, l, tokenId, to);
    }

    // ------------------------------------------------------- external calls

    /** How a transfer ends: it needs an existing word, a caller allowed to move
        it, its owner as the sender, a receiver, and votes to move. */
    function TransferOutcome(sender: Address, from: Address, to: Address, tokenId: int): Outcome
      reads this, votes
    {
      if !IsApprovedOrOwner(sender, tokenId) || owners[tokenId] != from || to == ZERO then Reverted
      else HookOutcome(from, to)
    }

    method TransferFrom(sender: Address, from: Address, to: Address, tokenId: int) returns (r: Outcome)
      requires Valid() && sender != ZERO
      modifies `owners, `balances, `tokenApprovals, `currentWordId, list,
               votes`delegatee, votes`checkpoints, votes`numCheckpoints, votes`nonces, votes`events
      ensures Valid()
      ensures r == old(TransferOutcome(sender, from, to, tokenId))
      ensures L() == if r.Success? then old(L()).Moved(tokenId, to) else old(L())
      ensures tokenApprovals == if r.Success? then old(tokenApprovals)[tokenId := ZERO] else old(tokenApprovals)
      ensures currentWordId == old(currentWordId)
      ensures r.Success? ==> Transfers(votes.events) == old(Transfers(votes.events)) + [Transfer(from, to, tokenId)]
      ensures !r.Success? ==>
                Snapshot() == old(Snapshot()) && votes.events == old(votes.events) && votes.nonces == old(votes.nonces)
    {
      hide ERC721Checkpointable.Describes, ERC721Enumerable.Describes, Tells, Transfers;
      var before := Snapshot();
      if !IsApprovedOrOwner(sender, tokenId) { return Reverted; }
      r := TransferWord(from, to, tokenId);
      if !r.Success? { Reverting(before); RevertedValid(); }
    }

    /** Burning is the minter's alone. */
    method Burn(sender: Address, wordId: int) returns (r: Outcome)
      requires Valid() && sender != ZERO
      modifies `owners, `balances, `tokenApprovals, `currentWordId, list,
               votes`delegatee, votes`checkpoints, votes`numCheckpoints, votes`nonces, votes`events
      ensures Valid()
      ensures r == if sender != minter || wordId !in old(owners) then Reverted
                   else old(HookOutcome(owners[wordId], ZERO))
      ensures L() == if r.Success? then old(L()).Moved(wordId, ZERO) else old(L())
      ensures tokenApprovals == if r.Success? then old(tokenApprovals)[wordId := ZERO] else old(tokenApprovals)
      ensures currentWordId == old(currentWordId)
      ensures r.Success? ==>
                Transfers(votes.events) == old(Transfers(votes.events)) + [Transfer(old(owners[wordId]), ZERO, wordId)]
      ensures !r.Success? ==>
                Snapshot() == old(Snapshot()) && votes.events == old(votes.events) && votes.nonces == old(votes.nonces)
    {
      hide WordsToken.Consistent, WordsToken.Snapshot, WordsToken.HookOutcome;
      var before := Snapshot();
      if sender != minter { return Reverted; }
      r := BurnWord(wordId);
      if !r.Success? { Reverting(before); RevertedValid(); RevertedFields(); }
    }

    /** Mints the word at the counter, which nobody has owned yet. */
    method MintNext(to: Address) returns (r: Outcome, wordId: nat)
      requires Consistent() && IdsBelowCounter() && ApprovalsExist()
      modifies `owners, `balances, `currentWordId, list, votes`checkpoints, votes`numCheckpoints, votes`events
      ensures wordId == old(currentWordId) && wordId !in old(owners)
      ensures r == if to == ZERO then Reverted else old(HookOutcome(ZERO, to))
      ensures r.Success? ==> Consistent() && IdsBelowCounter() && ApprovalsExist() && currentWordId == wordId + 1
      ensures r.Success? ==> to != ZERO && L() == old(L()).Moved(wordId, to)
      ensures r.Success? ==>
                Transfers(votes.events) == old(Transfers(votes.events)) +
                [Transfer(ZERO, contractOwner, wordId), Transfer(contractOwner, to, wordId)]
      ensures to != ZERO && old(Room(1)) ==> r.Success?
    {
      hide WordsToken.Consistent, WordsToken.HookOutcome, Transfers;
      if to != ZERO && Room(1) { MintSucceeds(this, to); }
      wordId := currentWordId;
      currentWordId := currentWordId + 1;
      r := MintWord(contractOwner, to, wordId);
    }

    /** A reward is due and there is no account to give it to. */
    predicate RewardUnclaimed()
      reads `currentWordId, `worddersDAO
    {
      IsReward(currentWordId) && worddersDAO == ZERO
    }

    /** The transfers announced by a mint that finds the counter at `c`: each word goes
        to the contract's owner and on to its receiver. */
    function MintTransfers(c: int, wordId: int): seq<Event>
      reads `contractOwner, `worddersDAO, `minter
    {
      (if IsReward(c) then [Transfer(ZERO, contractOwner, c), Transfer(contractOwner, worddersDAO, c)] else [])
      + [Transfer(ZERO, contractOwner, wordId), Transfer(contractOwner, minter, wordId)]
    }

    /** Both mints: a reward first when the counter stands at a reward id, then the
        word for the minter. */
    method MintBoth() returns (r: Outcome, wordId: nat)
      requires Consistent() && IdsBelowCounter() && ApprovalsExist() && minter != ZERO
      modifies `owners, `balances, `currentWordId, list, votes`checkpoints, votes`numCheckpoints, votes`events
      ensures r.Success? ==> Consistent() && IdsBelowCounter() && ApprovalsExist()
      ensures r.Success? ==>
              wordId == AuctionedAt(old(currentWordId)) && wordId !in old(owners) && currentWordId == wordId + 1
      ensures r.Success? ==> var c := old(currentWordId);
                L() == (if IsReward(c) then old(L()).Moved(c, worddersDAO) else old(L())).Moved(wordId, minter)
      ensures r.Success? ==>
                Transfers(votes.events) == old(Transfers(votes.events)) + MintTransfers(old(currentWordId), wordId)
      ensures old(RewardUnclaimed()) ==> r == Reverted
      ensures !old(RewardUnclaimed()) && old(Room(2)) ==> r.Success?
    {
      hide WordsToken.Consistent, WordsToken.ApprovalsExist, WordsToken.HookOutcome, Transfers;
      if currentWordId <= LAST_REWARD && currentWordId % 10 == 0 {
        r, wordId := MintNext(worddersDAO);
        if !r.Success? { return; }
      }
      r, wordId := MintNext(minter);
    }

    /** A mint by the minter succeeds, within the integer widths, unless a reward is
        due and there is nobody to give it to. */
    method Mint(sender: Address) returns (r: Outcome, wordId: nat)
      requires Valid() && sender != ZERO
      modifies `owners, `balances, `tokenApprovals, `currentWordId, `mints, list,
               votes`delegatee, votes`checkpoints, votes`numCheckpoints, votes`nonces, votes`events
      ensures Valid()
      ensures r.Success? ==> sender == minter && mints == old(mints) + 1 && wordId == AuctionedId(old(mints))
      ensures r.Success? ==> wordId !in old(owners) && currentWordId == wordId + 1
      ensures r.Success? ==> var c := old(currentWordId);
                L() == (if IsReward(c) then old(L()).Moved(c, worddersDAO) else old(L())).Moved(wordId, minter)
      ensures r.Success? ==>
                Transfers(votes.events) == old(Transfers(votes.events)) + MintTransfers(old(currentWordId), wordId)
      ensures !r.Success? ==> Snapshot() == old(Snapshot()) && mints == old(mints)
      ensures !r.Success? ==> votes.events == old(votes.events) && votes.nonces == old(votes.nonces)
      ensures sender != minter || old(RewardUnclaimed()) ==> r == Reverted
      ensures sender == minter && !old(RewardUnclaimed()) && old(Room(2)) ==> r.Success?
      ensures tokenApprovals == old(tokenApprovals)
    {
      hide Transfers, WordsToken.MintTransfers;
      hide WordsToken.Consistent, WordsToken.ApprovalsExist, WordsToken.IdsBelowCounter, WordsToken.Snapshot,
           WordsToken.RewardUnclaimed, WordsToken.Room;
      var before := Snapshot();
      if sender != minter { return Reverted, 0; }
      r, wordId := MintBoth();
      if !r.Success? { Reverting(before); RevertedValid(); RevertedFields(); return; }
      mints := mints + 1;
    }

    /** How a delegation ends: the old representative must have the votes to give. */
    function DelegateOutcome(delegator: Address, delegatee: Address): Outcome
      reads this, votes
    {
      var amount := At(balances, delegator, 0);
      var current := votes.Delegates(delegator);
      if amount > MAX_UINT96 then Reverted
      else MoveOutcome(votes.T(current), votes.T(delegatee), current, delegatee, amount, votes.blockNumber)
    }

    method DelegateTo(delegator: Address, delegatee: Address) returns (r: Outcome)
      requires Valid() && delegator != ZERO
      modifies `forfeited, votes`delegatee, votes`checkpoints, votes`numCheckpoints, votes`events
      ensures r == old(DelegateOutcome(delegator, delegatee))
      ensures r.Success? ==> Valid() && L() == old(L()).Delegated(delegator, delegatee)
      ensures r.Success? ==> Transfers(votes.events) == old(Transfers(votes.events))
      ensures !r.Success? ==> forfeited == old(forfeited)
    {
      hide ERC721Checkpointable.Describes, ERC721Enumerable.Describes, Tells, Transfers;
      ghost var l := L();
      var amount := At(balances, delegator, 0);
      if amount > MAX_UINT96 { return Reverted; }
      r := votes.DelegateVotes(delegator, delegatee, amount, l);
      if r.Success? {
        forfeited := l.Delegated(delegator, delegatee).forfeited;
        TellsSame(old(votes.events), votes.events, l);
        TellsOwners(votes.events, l, L());
      }
    }

    /** `delegate` turns the zero address into the caller, so it never forfeits votes. */
    method Delegate(sender: Address, delegatee: Address) returns (r: Outcome)
      requires Valid() && sender != ZERO
      modifies `owners, `balances, `tokenApprovals, `currentWordId, `forfeited, list,
               votes`delegatee, votes`checkpoints, votes`numCheckpoints, votes`nonces, votes`events
      ensures Valid()
      ensures var to := if delegatee == ZERO then sender else delegatee;
        && r == old(DelegateOutcome(sender, to))
        && L() == if r.Success? then old(L()).Delegated(sender, to) else old(L())
      ensures forfeited == old(forfeited)
      ensures currentWordId == old(currentWordId) && owners == old(owners) && tokenApprovals == old(tokenApprovals)
      ensures !r.Success? ==>
                Snapshot() == old(Snapshot()) && votes.events == old(votes.events) && votes.nonces == old(votes.nonces)
    {
      hide ERC721Checkpointable.Describes, ERC721Enumerable.Describes, WordsToken.Snapshot;
      var before := Snapshot();
      r := DelegateTo(sender, if delegatee == ZERO then sender else delegatee);
      if !r.Success? { Reverting(before); RevertedValid(); RevertedFields(); }
    }

    /** `delegateBySig` takes the delegatee as signed. The signatory is what
        signature recovery gave, the zero address when it failed. */
    method DelegateBySig(signatory: Address, delegatee: Address, nonce: nat, expiry: nat) returns (r: Outcome)
      requires Valid()
      modifies `owners, `balances, `tokenApprovals, `currentWordId, `forfeited, list,
               votes`delegatee, votes`checkpoints, votes`numCheckpoints, votes`nonces, votes`events
      ensures Valid()
      ensures r == if signatory == ZERO || nonce != At(old(votes.nonces), signatory, 0) || votes.timestamp > expiry
                   then Reverted else old(DelegateOutcome(signatory, delegatee))
      ensures L() == if r.Success? then old(L()).Delegated(signatory, delegatee) else old(L())
      ensures r.Success? ==> votes.nonces == old(votes.nonces)[signatory := nonce + 1]
      ensures currentWordId == old(currentWordId) && owners == old(owners) && tokenApprovals == old(tokenApprovals)
      ensures !r.Success? ==>
                Snapshot() == old(Snapshot()) && votes.events == old(votes.events) && votes.nonces == old(votes.nonces)
    {
      hide ERC721Checkpointable.Describes, ERC721Enumerable.Describes, WordsToken.Snapshot;
      var before := Snapshot();
      if signatory == ZERO { return Reverted; }
      if nonce != At(votes.nonces, signatory, 0) { return Reverted; }
      votes.UseNonce(signatory, L());
      if votes.timestamp > expiry { Reverting(before); RevertedValid(); RevertedFields(); return Reverted; }
      r := DelegateTo(signatory, delegatee);
      if !r.Success? { Reverting(before); RevertedValid(); RevertedFields(); }
    }

    /** A block ends: its ledger becomes history. */
    method NextBlock(elapsed: nat)
      requires Valid()
      modifies votes`blockNumber, votes`timestamp, votes`history
      ensures Valid() && L() == old(L()) && votes.history == old(votes.history) + [L()]
      ensures votes.blockNumber == old(votes.blockNumber) + 1 && votes.timestamp == old(votes.timestamp) + elapsed
    {
      hide ERC721Checkpointable.Describes, ERC721Enumerable.Describes;
      votes.NextBlock(elapsed, L());
    }

    method GetPriorVotes(account: Address, b: nat) returns (r: Outcome, n: nat)
      requires Valid()
      ensures r == if b < votes.blockNumber then Success else Reverted
      ensures r.Success? ==> |votes.history| == votes.blockNumber && n == votes.history[b].Votes(account)
    {
      r, n := votes.GetPriorVotes(account, b, L());
    }

    method GetCurrentVotes(account: Address) returns (n: nat)
      requires Valid()
      ensures n == L().Votes(account)
    {
      n := votes.GetCurrentVotes(account, L());
    }

    method TotalSupply() returns (n: nat)
      requires Valid()
      ensures n == L().Supply()
    {
      n := list.TotalSupply(owners);
    }
  }

  /** A token without words, votes, delegates or events. */
  lemma NewToken(t: WordsToken)
    requires t.list.Describes(map[]) && t.votes.Describes(EMPTY) && t.votes.delegatee == map[] && t.votes.events == []
    requires forall l :: l in t.votes.history ==> l == EMPTY
    requires t.owners == map[] && t.balances == map[] && t.tokenApprovals == map[] && t.forfeited == map[]
    requires t.currentWordId == 0 && t.mints == 0 && t.votes.timestamp > 0
    ensures t.Valid() && t.L() == EMPTY
  {
    hide Tells, ERC721Enumerable.Describes, ERC721Checkpointable.Describes;
    EmptyVotes();
    NothingTold();
    assert t.L() == EMPTY;
    assert forall b :: 0 <= b < |t.votes.history| ==> t.votes.history[b] in t.votes.history;
    assert forall id :: At(t.tokenApprovals, id, ZERO) == ZERO;
    assert t.Books(EMPTY);
  }

  /** The hook reads the balance mapping where the ledger counts. */
  lemma HookBalances(balances: map<Address, nat>, l: Ledger, owned: Slots, index: Index, from: Address, to: Address,
      id: int)
    requires forall a :: a != ZERO ==> At(balances, a, 0) == l.Balance(a)
    requires from != ZERO ==> l.Balance(from) > 0
    ensures from != ZERO ==> At(balances, from, 0) > 0
    ensures HookedOwned(owned, index, from, to, id, At(balances, from, 0), At(balances, to, 0)) ==
            HookedOwned(owned, index, from, to, id, l.Balance(from), l.Balance(to))
  {
  }

  /** Checkpoints cannot outnumber blocks. */
  lemma {:induction false} TrailLength(t: seq<Checkpoint>)
    requires Increasing(t)
    ensures t != [] ==> |t| <= t[|t| - 1].fromBlock + 1
  {
    if |t| > 1 {
      TrailLength(t[..|t| - 1]);
      assert t[|t| - 2].fromBlock < t[|t| - 1].fromBlock;
    }
  }

  /** While block numbers fit their width, a checkpoint can be written for any
      account; its last one holds the votes of the account. */
  lemma Writable(t: WordsToken, a: Address)
    requires t.Consistent() && t.votes.blockNumber < 4_294_967_295
    ensures Latest(t.votes.T(a)) == t.L().Votes(a)
    ensures WriteOutcome(t.votes.T(a), t.votes.blockNumber).Success?
  {
    hide ERC721Enumerable.Describes, Faithful, WordsToken.Books, ERC721Checkpointable.T, Ledger.Votes;
    assert Replays(t.votes.T(a), a, t.votes.blockNumber, t.L(), t.votes.history);
    TrailLength(t.votes.T(a));
  }

  /** While block numbers and the supply fit their widths, moving an existing word
      succeeds if and only if the representative of its owner still has a vote to
      give, or none has to move. With conserved votes it always has one; an owner
      whose representative forfeited its votes may be stuck. */
  lemma MoveSucceeds(t: WordsToken, id: int, to: Address)
    requires t.Consistent() && id in t.owners
    requires t.Room(1)
    ensures var l := t.L(); var src := l.Rep(t.owners[id]);
      && t.HookOutcome(t.owners[id], to) == (if src == l.Rep(to) || l.Votes(src) > 0 then Success else Reverted)
      && (l.Forfeited(src) == 0 ==> l.Votes(src) > 0)
  {
    hide WordsToken.Consistent, Latest, WriteOutcome, ERC721Checkpointable.T;
    var l := t.L();
    var src, dst := l.Rep(t.owners[id]), l.Rep(to);
    Writable(t, src);
    Writable(t, dst);
    BackingWithin(l, dst);
    assert id in l.Backing(src);
    NobodyIsZero(t, t.owners[id]);
    NobodyIsZero(t, to);
  }

  /** Neither owners nor representatives are the zero address, and nobody
      represents it. */
  lemma NobodyIsZero(t: WordsToken, a: Address)
    requires t.Consistent()
    ensures forall id :: id in t.owners ==> t.owners[id] != ZERO
    ensures a != ZERO ==> t.votes.Delegates(a) == t.L().Rep(a) != ZERO
    ensures t.votes.Delegates(ZERO) == ZERO
  {
    hide ERC721Enumerable.Describes, ERC721Checkpointable.Describes;
  }

  /** So a word can be transferred, from its owner to anyone but the zero address,
      by its owner, the account approved for it, an operator of the owner, and the
      owner's proxy, and by nobody else; and only a missing vote stops them. */
  lemma TransferSucceeds(t: WordsToken, sender: Address, from: Address, to: Address, id: int)
    requires t.Valid() && t.Room(1)
    ensures var l := t.L();
      t.TransferOutcome(sender, from, to, id) ==
      if id in t.owners && t.owners[id] == from && to != ZERO
         && (sender == from || At(t.tokenApprovals, id, ZERO) == sender
             || At(t.operatorApprovals, (from, sender), false) || At(t.proxies, from, ZERO) == sender)
         && (l.Rep(from) == l.Rep(to) || l.Votes(l.Rep(from)) > 0)
      then Success else Reverted
  {
    hide ERC721Enumerable.Describes, ERC721Checkpointable.Describes, WordsToken.HookOutcome, Ledger.Votes;
    if id in t.owners { MoveSucceeds(t, id, to); }
  }

  /** What an approval is for: once the owner approved an account for a word, that
      account can transfer it, once. */
  method ApprovedTransfers(t: WordsToken, owner: Address, approved: Address, to: Address, id: int)
    returns (a: Outcome, r: Outcome, again: Outcome)
    requires t.Valid() && t.Room(1) && id in t.owners && t.owners[id] == owner
    requires approved != ZERO && approved != owner && to != ZERO
    requires t.L().Rep(owner) == t.L().Rep(to) || t.L().Votes(t.L().Rep(owner)) > 0
    modifies t`owners, t`balances, t`tokenApprovals, t`currentWordId, t.list,
             t.votes`delegatee, t.votes`checkpoints, t.votes`numCheckpoints, t.votes`nonces, t.votes`events
    ensures t.Valid() && a.Success? && r.Success? && t.L() == old(t.L()).Moved(id, to)
    ensures approved != to && !At(t.operatorApprovals, (to, approved), false) && At(t.proxies, to, ZERO) != approved ==>
              !again.Success?
    ensures again.Success? ==> t.owners[id] == to
  {
    hide WordsToken.Valid, WordsToken.TransferOutcome, Ledger.Votes, WordsToken.Snapshot, Ledger.Moved;
    OwnerNotZero(t, id);
    a := t.Approve(owner, approved, id);
    TransferSucceeds(t, approved, owner, to, id);
    r := t.TransferFrom(approved, owner, to, id);
    MovedOwner(old(t.L()), id, to);
    RoomKept(old(t.L()), id, to);
    TransferSucceeds(t, approved, to, to, id);
    MovedTwice(old(t.L()), id, to);
    again := t.TransferFrom(approved, to, to, id);
  }

  lemma OwnerNotZero(t: WordsToken, id: int)
    requires t.Valid() && id in t.owners
    ensures t.owners[id] != ZERO
  {
  }

  lemma MovedOwner(l: Ledger, id: int, to: Address)
    requires to != ZERO
    ensures id in l.Moved(id, to).owners && l.Moved(id, to).owners[id] == to
  {
  }

  lemma MovedTwice(l: Ledger, id: int, to: Address)
    requires to != ZERO
    ensures l.Moved(id, to).Moved(id, to) == l.Moved(id, to)
  {
  }

  lemma RoomKept(l: Ledger, id: int, to: Address)
    requires id in l.owners && to != ZERO
    ensures l.Moved(id, to).Supply() == l.Supply()
  {
    assert l.Moved(id, to).owners.Keys == l.owners.Keys;
  }

  /** And an account the owner made its operator can transfer any of its words. */
  method OperatorTransfers(t: WordsToken, owner: Address, operator: Address, to: Address, id: int)
    returns (a: Outcome, r: Outcome)
    requires t.Valid() && t.Room(1) && id in t.owners && t.owners[id] == owner
    requires operator != ZERO && operator != owner && to != ZERO
    requires t.L().Rep(owner) == t.L().Rep(to) || t.L().Votes(t.L().Rep(owner)) > 0
    modifies t`owners, t`balances, t`tokenApprovals, t`operatorApprovals, t`currentWordId, t.list,
             t.votes`delegatee, t.votes`checkpoints, t.votes`numCheckpoints, t.votes`nonces, t.votes`events
    ensures t.Valid() && a.Success? && r.Success? && t.L() == old(t.L()).Moved(id, to)
  {
    hide WordsToken.Valid, WordsToken.TransferOutcome, Ledger.Votes, WordsToken.Snapshot, Ledger.Moved;
    OwnerNotZero(t, id);
    a := t.SetApprovalForAll(owner, operator, true);
    TransferSucceeds(t, operator, owner, to, id);
    r := t.TransferFrom(operator, owner, to, id);
  }

  /** The same for a delegation, which moves a whole balance: it succeeds if and
      only if the representative is kept, or has at least the delegator's balance
      in votes. With nothing forfeited it always has. */
  lemma DelegateSucceeds(t: WordsToken, d: Address, e: Address)
    requires t.Valid() && d != ZERO
    requires t.Room(1)
    ensures var l := t.L(); var src := l.Rep(d);
      && t.DelegateOutcome(d, e) == (if src == e || l.Balance(d) <= l.Votes(src) then Success else Reverted)
      && (l.Forfeited(src) == 0 ==> l.Balance(d) <= l.Votes(src))
  {
    hide WordsToken.Valid, Latest, WriteOutcome, ERC721Checkpointable.T;
    var l := t.L();
    var src := l.Rep(d);
    BalanceOfAccount(t, d);
    NobodyIsZero(t, d);
    Writable(t, src);
    Writable(t, e);
    BalanceWithin(l, d, e);
    BackingWithin(l, src);
  }

  /** Such a refusal happens: an account that owns one word and signed a delegation
      to the zero address can never delegate to anyone else, in person or signed. */
  method RefusedRedelegation(other: Address) returns (t: WordsToken, r: Outcome)
    requires other != 1 && other != ZERO
    ensures t.Valid() && t.L() == EMPTY.Moved(0, 1).Moved(1, 2).Delegated(1, ZERO)
    ensures t.L().Balance(1) == 1 && !r.Success?
  {
    hide WordsToken.Valid, WordsToken.DelegateOutcome, WordsToken.Snapshot, WordsToken.MintTransfers, Transfers;
    hide Ledger.Votes, Ledger.Balance, Ledger.Delegated;
    t := new WordsToken(9, 1, 2, 0, 1);
    var minted, id := t.Mint(2);
    OneWordEach();
    DelegateSucceeds(t, 1, ZERO);
    var signed := t.DelegateBySig(1, ZERO, At(t.votes.nonces, 1, 0), 1);
    DelegateSucceeds(t, 1, other);
    r := t.Delegate(1, other);
  }

  lemma OneWordEach()
    ensures var l := EMPTY.Moved(0, 1).Moved(1, 2); var l' := l.Delegated(1, ZERO);
      && l.Supply() == 2 && l'.Supply() == 2 && l.Rep(1) == 1 && l'.Rep(1) == 1
      && l.Forfeited(1) == 0 && l'.Balance(1) == 1 && l'.Votes(1) == 0
  {
    var l := EMPTY.Moved(0, 1).Moved(1, 2);
    assert OwnedBy(l.owners, 1) == {0};
    assert l.Delegated(1, ZERO).Backing(1) == {0};
  }

  /** From block 2^32 on no vote can be moved any more, and no word between accounts
      with different representatives. */
  lemma BlockTooWide(t: WordsToken, from: Address, to: Address)
    requires t.Consistent() && t.votes.blockNumber >= 4_294_967_296
    requires from != ZERO || to != ZERO
    ensures t.HookOutcome(from, to).Success? <==> t.votes.Delegates(from) == t.votes.Delegates(to)
  {
    hide WordsToken.Consistent, Latest, ERC721Checkpointable.T;
    NobodyIsZero(t, from);
    NobodyIsZero(t, to);
  }

  lemma BalanceOfAccount(t: WordsToken, a: Address)
    requires t.Valid() && a != ZERO
    ensures t.Consistent() && At(t.balances, a, 0) == t.L().Balance(a)
  {
  }

  /** Minting a word to an account never fails in the hook. */
  lemma MintSucceeds(t: WordsToken, to: Address)
    requires t.Consistent() && to != ZERO
    requires t.Room(1)
    ensures t.HookOutcome(ZERO, to) == Success
  {
    hide WordsToken.Consistent, Latest, WriteOutcome, ERC721Checkpointable.T;
    var l := t.L();
    NobodyIsZero(t, to);
    Writable(t, l.Rep(to));
    BackingWithin(l, l.Rep(to));
  }
}
