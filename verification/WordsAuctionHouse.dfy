/** The auction house: an escrow over one auction at a time, joined to the token
    that mints the word for sale. */
module WordsAuctionHouses {
  import opened Basics
  import opened Ledgers
  import opened MintSchedule
  import opened WordsTokens
  import opened Checkpoints

  datatype Auction = Auction(wordId: int, amount: nat, startTime: nat, endTime: nat, bidder: Address, settled: bool)

  const NO_AUCTION := Auction(0, 0, 0, 0, ZERO, false)

  /** A word is up for auction, or waits for its auction to be settled. */
  predicate Running(a: Auction) {
    a.startTime != 0 && !a.settled
  }

  /** What the house holds for the leading bidder. */
  function Escrow(a: Auction): nat {
    if Running(a) then a.amount else 0
  }

  /** The least bid above `amount`: an increment of `p` per cent, rounded down. */
  function NextBid(amount: nat, p: nat): nat {
    amount + (amount * p) / 100
  }

  /** The least accepted bid is above the increment by less than one. */
  lemma LeastBid(amount: nat, p: nat, bid: nat)
    ensures bid >= NextBid(amount, p) <==> 100 * (bid - amount) > amount * p - 100
  {
  }

  class WordsAuctionHouse {
    const self: Address
    const words: WordsToken

    var owner: Address
    var timeBuffer: nat
    var reservePrice: nat
    var minBidIncrementPercentage: nat
    var duration: nat
    var auction: Auction
    var paused: bool
    var balance: nat  // the ETH the house holds

    // history variables
    ghost var paidIn: nat     // ETH received with accepted bids
    ghost var refunded: nat   // paid back to outbid bidders, in ETH or WETH
    ghost var proceeds: nat   // paid to the owner, in ETH or WETH
    ghost var forced: nat     // ETH sent without a bid
    ghost var ethOut: map<Address, nat>   // what each account was paid in ETH
    ghost var wethOut: map<Address, nat>  // and in WETH
    ghost var bids: seq<nat>  // the bids of this auction, from the one that led when the increment was last set

    /** The books balance: the house holds exactly the leading bid of a running
        auction, and whatever was forced on it. */
    ghost predicate Solvent()
      reads `auction, `balance, `paidIn, `refunded, `proceeds, `forced
    {
      && balance == Escrow(auction) + forced
      && paidIn == refunded + proceeds + Escrow(auction)
    }

    /** What an account was paid by the house, either way. */
    ghost function Paid(a: Address): nat
      reads `ethOut, `wethOut
    {
      At(ethOut, a, 0) + At(wethOut, a, 0)
    }

    ghost predicate GoodAuction()
      reads `auction, words.votes`timestamp
    {
      && (auction.startTime == 0 ==> auction == NO_AUCTION)
      && (auction.settled ==> auction.endTime <= words.votes.timestamp)
      && (auction.bidder == ZERO ==> auction.amount == 0)
    }

    /** The last bid leads, and each reached the one before plus the increment. */
    ghost predicate Climbs()
      reads `auction, `bids, `minBidIncrementPercentage
    {
      && (auction.bidder == ZERO <==> bids == [])
      && (bids != [] ==> bids[|bids| - 1] == auction.amount)
      && Increments(bids, minBidIncrementPercentage)
    }

    /** Nobody acts for the house: it approved nobody, and delegated to nobody. */
    ghost predicate Alone()
      reads words`operatorApprovals, words`proxies, words`forfeited, words.votes`delegatee
    {
      && At(words.proxies, self, ZERO) == ZERO
      && (forall op :: !At(words.operatorApprovals, (self, op), false))
      && At(words.votes.delegatee, self, ZERO) == ZERO && At(words.forfeited, self, 0) == 0
    }

    /** The house owns the word of a running auction, and approved nobody for it. */
    ghost predicate Holds()
      reads `auction, words`owners, words`tokenApprovals
    {
      Running(auction) ==>
        auction.wordId in words.owners && words.owners[auction.wordId] == self
        && At(words.tokenApprovals, auction.wordId, ZERO) == ZERO
        && !IsReward(auction.wordId)
    }

    /** What holds before and after every step of the house, the internal ones included. */
    ghost predicate Orderly()
      reads this, words, words.list, words.votes
    {
      && self != ZERO && words.minter == self
      && words.Valid() && Solvent() && GoodAuction() && Climbs() && Alone() && Holds()
    }

    /** Between transactions, an auction runs unless the house is paused. */
    ghost predicate Valid()
      reads this, words, words.list, words.votes
    {
      Orderly() && (!paused ==> Running(auction))
    }

    constructor (self: Address, words: WordsToken, owner: Address, timeBuffer: nat, reservePrice: nat,
                 minBidIncrementPercentage: nat, duration: nat)
      requires words.Valid() && self != ZERO && words.minter == self && minBidIncrementPercentage < 256
      requires At(words.proxies, self, ZERO) == ZERO && (forall op :: !At(words.operatorApprovals, (self, op), false))
      requires At(words.votes.delegatee, self, ZERO) == ZERO && At(words.forfeited, self, 0) == 0
      ensures Valid() && paused && auction == NO_AUCTION
      ensures this.self == self && this.words == words && this.owner == owner
      ensures this.timeBuffer == timeBuffer && this.reservePrice == reservePrice && this.duration == duration
      ensures this.minBidIncrementPercentage == minBidIncrementPercentage
    {
      this.self, this.words, this.owner := self, words, owner;
      this.timeBuffer, this.reservePrice := timeBuffer, reservePrice;
      this.minBidIncrementPercentage, this.duration := minBidIncrementPercentage, duration;
      auction, paused, balance := NO_AUCTION, true, 0;
      paidIn, refunded, proceeds, forced := 0, 0, 0, 0;
      ethOut, wethOut, bids := map[], map[], [];
    }

    /** Pays in ETH, or in WETH if the receiver does not take ETH: either way the
        house parts with the amount. */
    method SafeTransferETHWithFallback(to: Address, amount: nat, takesEth: bool)
      requires amount <= balance
      modifies `balance, `ethOut, `wethOut
      ensures balance == old(balance) - amount
      ensures ethOut == if takesEth then old(ethOut)[to := At(old(ethOut), to, 0) + amount] else old(ethOut)
      ensures wethOut == if takesEth then old(wethOut) else old(wethOut)[to := At(old(wethOut), to, 0) + amount]
      ensures forall a :: Paid(a) == old(Paid(a)) + if a == to then amount else 0
    {
      balance := balance - amount;
      if takesEth {
        ethOut := ethOut[to := At(ethOut, to, 0) + amount];
      } else {
        wethOut := wethOut[to := At(wethOut, to, 0) + amount];
      }
    }

    /** A bid must name the word, come in time, and reach both the reserve price and
        the leading bid plus its minimum increment. */
    method CreateBid(sender: Address, value: nat, wordId: int, takesEth: bool) returns (r: Outcome)
      requires Valid() && sender != ZERO
      modifies `auction, `balance, `paidIn, `refunded, `ethOut, `wethOut, `bids
      ensures Valid()
      ensures var a, now := old(auction), words.votes.timestamp;
        r == if a.wordId == wordId && now < a.endTime && value >= reservePrice &&
                100 * (value - a.amount) > a.amount * minBidIncrementPercentage - 100 then Success else Reverted
      ensures r.Success? ==> Running(old(auction)) && BidTaken(sender, value)
      ensures r.Success? ==> var a, soonest := old(auction), words.votes.timestamp + timeBuffer;
                auction == Auction(a.wordId, value, a.startTime,
                                   if soonest > a.endTime then soonest else a.endTime, sender, false)
      ensures !r.Success? ==> auction == old(auction) && balance == old(balance) && bids == old(bids)
                              && paidIn == old(paidIn) && refunded == old(refunded)
    {
      hide WordsAuctionHouse.Orderly, NextBid;
      var auction_ := auction;
      LeastBid(auction_.amount, minBidIncrementPercentage, value);
      if auction_.wordId != wordId { return Reverted; }
      if words.votes.timestamp >= auction_.endTime { return Reverted; }
      if value < reservePrice { return Reverted; }
      if value < NextBid(auction_.amount, minBidIncrementPercentage) { return Reverted; }
      OpenForBids();
      TakeBid(sender, value, takesEth);
      BidOrderly();
      return Success;
    }

    /** The bid leads, the outbid bidder alone was refunded, and at least the time
        buffer remains. */
    twostate predicate BidTaken(sender: Address, value: nat)
      reads this, words.votes
    {
      var a, now := old(auction), words.votes.timestamp;
      && auction == a.(amount := value, bidder := sender, endTime := auction.endTime)
      && auction.endTime == (if a.endTime - now < timeBuffer then now + timeBuffer else a.endTime)
      && auction.endTime >= a.endTime && auction.endTime - now >= timeBuffer
      && refunded == old(refunded) + a.amount && paidIn == old(paidIn) + value
      && balance == old(balance) + value - a.amount && bids == old(bids) + [value]
      && forall x :: Paid(x) == old(Paid(x)) + if x == a.bidder then a.amount else 0
    }

    method TakeBid(sender: Address, value: nat, takesEth: bool)
      requires words.votes.timestamp < auction.endTime && auction.amount <= balance
      requires auction.bidder == ZERO ==> auction.amount == 0
      modifies `auction, `balance, `paidIn, `refunded, `ethOut, `wethOut, `bids
      ensures BidTaken(sender, value)
    {
      hide Paid;
      var auction_ := auction;
      balance, paidIn := balance + value, paidIn + value;
      var lastBidder := auction_.bidder;
      if lastBidder != ZERO {
        SafeTransferETHWithFallback(lastBidder, auction_.amount, takesEth);
        refunded := refunded + auction_.amount;
      }
      auction, bids := auction.(amount := value, bidder := sender), bids + [value];
      var now := words.votes.timestamp;
      var extended := auction_.endTime - now < timeBuffer;
      if extended {
        auction := auction.(endTime := now + timeBuffer);
      }
    }

    lemma OpenForBids()
      requires Orderly()
      ensures words.Valid() && Alone()
              && (words.votes.timestamp < auction.endTime ==> Running(auction) && auction.amount <= balance)
      ensures auction.bidder == ZERO ==> auction.amount == 0
    {
      hide WordsToken.Valid, Increments, Alone, Holds;
    }

    twostate lemma BidOrderly()
      requires old(Orderly()) && Running(old(auction)) && words.Valid() && Alone()
      requires words.minter == old(words.minter) && words.votes.timestamp == old(words.votes.timestamp)
      requires words.owners == old(words.owners) && words.tokenApprovals == old(words.tokenApprovals)
      requires auction == old(auction).(amount := auction.amount, bidder := auction.bidder, endTime := auction.endTime)
      requires auction.bidder != ZERO && auction.amount >= NextBid(old(auction).amount, minBidIncrementPercentage)
      requires bids == old(bids) + [auction.amount] && minBidIncrementPercentage == old(minBidIncrementPercentage)
      requires balance == old(balance) + auction.amount - old(auction).amount && forced == old(forced)
      requires refunded == old(refunded) + old(auction).amount && paidIn == old(paidIn) + auction.amount
               && proceeds == old(proceeds)
      ensures Orderly()
    {
      hide WordsToken.Valid, Increments, Alone, NextBid;
      IncrementsGrow(old(bids), auction.amount, minBidIncrementPercentage);
    }

    /** How handing over the word ends; the token has the last say. */
    function HandOverOutcome(): Outcome
      reads `auction, words, words.votes
    {
      if auction.bidder == ZERO then
        (if words.minter != self || auction.wordId !in words.owners then Reverted
         else words.HookOutcome(words.owners[auction.wordId], ZERO))
      else words.TransferOutcome(self, self, auction.bidder, auction.wordId)
    }

    /** The word goes to the leading bidder, or is burned when there is none. */
    method HandOver() returns (r: Outcome)
      requires words.Valid() && self != ZERO
      modifies words`owners, words`balances, words`tokenApprovals, words`currentWordId, words.list,
               words.votes`delegatee, words.votes`checkpoints, words.votes`numCheckpoints,
               words.votes`nonces, words.votes`events
      ensures words.Valid() && words.currentWordId == old(words.currentWordId)
              && words.votes.delegatee == old(words.votes.delegatee)
      ensures r == old(HandOverOutcome())
      ensures words.L() == if r.Success? then old(words.L()).Moved(auction.wordId, auction.bidder) else old(words.L())
      ensures words.tokenApprovals ==
              if r.Success? then old(words.tokenApprovals)[auction.wordId := ZERO] else old(words.tokenApprovals)
    {
      hide WordsToken.Valid, MoveOutcome;
      if auction.bidder == ZERO {
        r := words.Burn(self, auction.wordId);
      } else {
        r := words.TransferFrom(self, self, auction.bidder, auction.wordId);
      }
    }

    /** Settling: the word is handed over and the leading bid goes to the owner. */
    method SettleInternal(takesEth: bool) returns (r: Outcome)
      requires Orderly()
      modifies `auction, `balance, `proceeds, `ethOut, `wethOut,
               words`owners, words`balances, words`tokenApprovals, words`currentWordId, words.list,
               words.votes`delegatee, words.votes`checkpoints, words.votes`numCheckpoints,
               words.votes`nonces, words.votes`events
      ensures Orderly()
      ensures words.currentWordId == old(words.currentWordId)
      ensures r == if !Due(old(auction)) then Reverted else old(HandOverOutcome())
      ensures r.Success? ==> auction == old(auction).(settled := true)
                             && words.L() == old(words.L()).Moved(auction.wordId, auction.bidder)
                             && words.tokenApprovals == old(words.tokenApprovals)[auction.wordId := ZERO]
                             && balance == forced && proceeds == old(proceeds) + auction.amount
                             && forall a :: Paid(a) == old(Paid(a)) + if a == owner then auction.amount else 0
      ensures !r.Success? ==> auction == old(auction) && balance == old(balance) && proceeds == old(proceeds)
                              && ethOut == old(ethOut) && wethOut == old(wethOut)
                              && words.L() == old(words.L()) && words.tokenApprovals == old(words.tokenApprovals)
    {
      hide WordsToken.Valid, WordsToken.HookOutcome, WordsToken.TransferOutcome, Orderly, Ledger.Moved, Alone;
      var auction_ := auction;
      OrderlyParts();
      if auction_.startTime == 0 { return Reverted; }
      if auction_.settled { return Reverted; }
      if words.votes.timestamp < auction_.endTime { return Reverted; }
      auction := auction.(settled := true);
      r := HandOver();
      AloneStill();
      if !r.Success? {
        auction := auction_;
        SameOrderly();
        return;
      }
      if auction_.amount > 0 {
        SafeTransferETHWithFallback(owner, auction_.amount, takesEth);
        proceeds := proceeds + auction_.amount;
      }
      SettledOrderly();
    }

    lemma OrderlyParts()
      requires Orderly()
      ensures words.Valid() && Alone() && self != ZERO && words.minter == self
      ensures Running(auction) ==> auction.amount <= balance
    {
      hide WordsToken.Valid, Alone, Climbs, Holds;
    }

    twostate lemma SettledOrderly()
      requires old(Orderly()) && Running(old(auction)) && auction == old(auction).(settled := true)
      requires words.Valid() && Alone() && words.minter == old(words.minter)
      requires words.votes.timestamp == old(words.votes.timestamp) >= auction.endTime
      requires balance == old(balance) - auction.amount && proceeds == old(proceeds) + auction.amount
      requires paidIn == old(paidIn) && refunded == old(refunded) && forced == old(forced)
      requires bids == old(bids) && minBidIncrementPercentage == old(minBidIncrementPercentage)
      ensures Orderly() && balance == forced
    {
      hide WordsToken.Valid, Alone, Increments;
    }

    twostate lemma SameOrderly()
      requires old(Orderly()) && words.Valid() && Alone() && words.minter == old(words.minter)
      requires words.owners == old(words.owners) && words.tokenApprovals == old(words.tokenApprovals)
      requires words.votes.timestamp == old(words.votes.timestamp)
      requires auction == old(auction) && balance == old(balance) && forced == old(forced)
      requires paidIn == old(paidIn) && refunded == old(refunded) && proceeds == old(proceeds)
      requires bids == old(bids) && minBidIncrementPercentage == old(minBidIncrementPercentage)
      ensures Orderly()
    {
      hide WordsToken.Valid, Alone, Increments;
    }

    /** The time of a running auction has come. */
    predicate Due(a: Auction)
      reads words.votes`timestamp
    {
      Running(a) && words.votes.timestamp >= a.endTime
    }

    /** Mints a word and puts it up for auction. When the mint reverts with a
        reason, the house pauses instead; a panic reverts the whole call. Within
        the integer widths only an unclaimed reward keeps the auction from
        starting. */
    method CreateAuction() returns (r: Outcome)
      requires Orderly() && !Running(auction) && !paused
      modifies `auction, `paused, `bids,
               words`mints, words`owners, words`balances, words`tokenApprovals, words`currentWordId, words.list,
               words.votes`delegatee, words.votes`checkpoints, words.votes`numCheckpoints,
               words.votes`nonces, words.votes`events
      ensures Orderly() && (r.Success? ==> Valid())
      ensures r.Success? ==> if paused then auction == old(auction) && words.L() == old(words.L())
                             else NewAuction(old(words.mints), old(words.owners))
      ensures old(words.RewardUnclaimed()) ==> r.Success? && paused
      ensures old(words.Room(2)) ==> r.Success? && paused == old(words.RewardUnclaimed())
      ensures r.Success? && !paused ==> var now := words.votes.timestamp;
                auction == Auction(AuctionedId(old(words.mints)), 0, now, now + duration, ZERO, false)
      ensures !r.Success? ==>
              auction == old(auction) && paused == old(paused) && bids == old(bids) && words.L() == old(words.L())
                              && words.mints == old(words.mints) && words.currentWordId == old(words.currentWordId)
    {
      hide WordsToken.Valid, WordsToken.RewardUnclaimed, WordsToken.Room, Alone, Orderly;
      OrderlyParts();
      NewWordsUnapproved(words);
      var minted, wordId := words.Mint(self);
      DelegateeOf(words);
      AloneStill();
      match minted
      case Success =>
        var startTime := words.votes.timestamp;
        auction, bids := Auction(wordId, 0, startTime, startTime + duration, ZERO, false), [];
        StartedOrderly();
        r := Success;
      case Reverted =>
        paused := true;
        SameOrderly();
        r := Success;
      case Panicked =>
        SameOrderly();
        r := Panicked;
    }

    twostate lemma StartedOrderly()
      requires old(Orderly()) && !Running(old(auction)) && bids == []
      requires auction == Auction(auction.wordId, 0, words.votes.timestamp, auction.endTime, ZERO, false)
      requires words.votes.timestamp > 0 && Holds()
      requires words.Valid() && Alone() && words.minter == old(words.minter)
      requires balance == old(balance) && forced == old(forced)
      requires paidIn == old(paidIn) && refunded == old(refunded) && proceeds == old(proceeds)
      ensures Orderly() && Running(auction)
    {
      hide WordsToken.Valid, Alone;
    }

    /** The auction is a new one for the word just minted to the house. */
    ghost predicate NewAuction(mintsBefore: nat, ownersBefore: map<int, Address>)
      reads `auction, `duration, `bids, words`owners, words`tokenApprovals, words.votes`timestamp, words`mints
    {
      var now := words.votes.timestamp;
      && now > 0 && bids == []
      && auction == Auction(AuctionedId(mintsBefore), 0, now, now + duration, ZERO, false)
      && At(words.tokenApprovals, auction.wordId, ZERO) == ZERO
      && words.mints == mintsBefore + 1
      && auction.wordId !in ownersBefore && auction.wordId in words.owners && words.owners[auction.wordId] == self
      && !IsReward(auction.wordId)
    }

    /** Settling alone is for a paused house. */
    method SettleAuction(takesEth: bool) returns (r: Outcome)
      requires Valid()
      modifies `auction, `balance, `proceeds, `ethOut, `wethOut,
               words`owners, words`balances, words`tokenApprovals, words`currentWordId, words.list,
               words.votes`delegatee, words.votes`checkpoints, words.votes`numCheckpoints,
               words.votes`nonces, words.votes`events
      ensures Valid()
      ensures r == if !paused || !Running(old(auction)) || words.votes.timestamp < old(auction).endTime then Reverted
                   else old(HandOverOutcome())
      ensures r.Success? ==> auction == old(auction).(settled := true)
                             && words.L() == old(words.L()).Moved(auction.wordId, auction.bidder)
                             && balance == forced
                             && forall a :: Paid(a) == old(Paid(a)) + if a == owner then auction.amount else 0
      ensures !r.Success? ==> auction == old(auction) && balance == old(balance) && words.L() == old(words.L())
    {
      hide WordsToken.Valid, HandOverOutcome;
      if !paused { return Reverted; }
      r := SettleInternal(takesEth);
    }

    /** The old auction was paid out and its word handed over; a new one runs, unless
        the next mint reverted with a reason, which leaves the house paused. */
    twostate predicate Renewed()
      reads this, words, words.votes
    {
      && balance == forced && proceeds == old(proceeds) + old(auction).amount
      && (forall a :: Paid(a) == old(Paid(a)) + if a == owner then old(auction).amount else 0)
      && var l := old(words.L()).Moved(old(auction).wordId, old(auction).bidder);
         if paused then auction == old(auction).(settled := true) && words.L() == l
         else NewAuction(old(words.mints), l.owners)
    }

    /** Settles and starts the next auction, in a house that is not paused. If the
        next mint reverts with a reason the house ends up paused and settled;
        within the integer widths that takes an unclaimed reward, and nothing
        stops a settlement whose time has come. */
    method SettleCurrentAndCreateNewAuction(takesEth: bool) returns (r: Outcome)
      requires Valid()
      modifies `auction, `paused, `balance, `proceeds, `ethOut, `wethOut, `bids, words`mints,
               words`owners, words`balances, words`tokenApprovals, words`currentWordId, words.list,
               words.votes`delegatee, words.votes`checkpoints, words.votes`numCheckpoints,
               words.votes`nonces, words.votes`events
      ensures Valid()
      ensures old(paused) || !Due(old(auction)) ==> r == Reverted
      ensures !old(paused) && Due(old(auction)) && old(words.Room(2)) ==>
                r.Success? && paused == old(words.RewardUnclaimed())
      ensures r.Success? ==> Renewed() && (old(words.RewardUnclaimed()) ==> paused)
      ensures r.Success? && !paused ==> var now := words.votes.timestamp;
                auction == Auction(AuctionedId(old(words.mints)), 0, now, now + duration, ZERO, false)
      ensures !r.Success? ==>
              auction == old(auction) && paused == old(paused) && balance == old(balance) && words.L() == old(words.L())
      ensures !r.Success? ==> proceeds == old(proceeds) && ethOut == old(ethOut) && wethOut == old(wethOut)
    {
      hide *;
      if paused { return Reverted; }
      var before, auctionBefore, pausedBefore, balanceBefore := words.Snapshot(), auction, paused, balance;
      r := SettleAndCreate(takesEth);
      if r.Success? { return; }
      RevertHouse(before, auctionBefore, pausedBefore, balanceBefore,
                  old(proceeds), old(ethOut), old(wethOut), old(bids));
      RevertedCall();
    }

    method RevertHouse(before: Storage, auctionBefore: Auction, pausedBefore: bool, balanceBefore: nat,
                       ghost proceedsBefore: nat, ghost ethBefore: map<Address, nat>,
                       ghost wethBefore: map<Address, nat>, ghost bidsBefore: seq<nat>)
      modifies `auction, `paused, `balance, `proceeds, `ethOut, `wethOut, `bids,
               words`owners, words`balances, words`tokenApprovals, words`currentWordId, words.list,
               words.votes`delegatee, words.votes`checkpoints, words.votes`numCheckpoints,
               words.votes`nonces, words.votes`events
      ensures words.Snapshot() == before && auction == auctionBefore && paused == pausedBefore
              && balance == balanceBefore
      ensures proceeds == proceedsBefore && ethOut == ethBefore && wethOut == wethBefore && bids == bidsBefore
    {
      hide WordsToken.Snapshot;
      words.Reverting(before);
      auction, paused, balance := auctionBefore, pausedBefore, balanceBefore;
      proceeds, ethOut, wethOut, bids := proceedsBefore, ethBefore, wethBefore, bidsBefore;
    }

    /** What settling and starting an auction never writes. */
    ghost function Untouched(): (nat, nat, nat, nat, map<Address, nat>, Address, map<Address, Address>,
                                 map<(Address, Address), bool>, nat, nat, seq<Ledger>)
      reads `forced, `paidIn, `refunded, `minBidIncrementPercentage,
            words`forfeited, words`minter, words`proxies, words`operatorApprovals,
            words.votes`blockNumber, words.votes`timestamp, words.votes`history
    {
      (forced, paidIn, refunded, minBidIncrementPercentage,
       words.forfeited, words.minter, words.proxies, words.operatorApprovals,
       words.votes.blockNumber, words.votes.timestamp, words.votes.history)
    }

    /** A revert of the house's call also reverts the token. */
    twostate lemma RevertedCall()
      requires old(Valid()) && words.Snapshot() == old(words.Snapshot())
      requires words.mints == old(words.mints) && Untouched() == old(Untouched())
      requires auction == old(auction) && balance == old(balance) && paused == old(paused)
      requires proceeds == old(proceeds) && bids == old(bids)
      ensures Valid() && words.L() == old(words.L())
    {
      hide WordsToken.Valid, WordsToken.Snapshot, Alone, WordsToken.L, Increments;
      words.RevertedValid();
      words.RevertedFields();
      AloneStill();
    }

    method SettleAndCreate(takesEth: bool) returns (r: Outcome)
      requires Valid() && !paused
      modifies `auction, `paused, `balance, `proceeds, `ethOut, `wethOut, `bids, words`mints,
               words`owners, words`balances, words`tokenApprovals, words`currentWordId, words.list,
               words.votes`delegatee, words.votes`checkpoints, words.votes`numCheckpoints,
               words.votes`nonces, words.votes`events
      ensures !Due(old(auction)) ==> r == Reverted
      ensures Due(old(auction)) && old(words.Room(2)) ==> r.Success? && paused == old(words.RewardUnclaimed())
      ensures r.Success? ==> Valid() && Renewed() && (old(words.RewardUnclaimed()) ==> paused)
      ensures r.Success? && !paused ==> var now := words.votes.timestamp;
                auction == Auction(AuctionedId(old(words.mints)), 0, now, now + duration, ZERO, false)
      ensures !r.Success? ==> words.mints == old(words.mints)
    {
      hide WordsToken.Room, HandOverOutcome, WordsToken.L, Ledger.Moved, Orderly, Valid, NewAuction, Paid,
           WordsToken.RewardUnclaimed;
      Unsettled();
      if Due(auction) && words.Room(2) { SettlementSucceeds(this); }
      r := SettleInternal(takesEth);
      if !r.Success? { return; }
      RoomStill();
      DelegateeOf(words);
      r := CreateAuction();
    }

    lemma Unsettled()
      requires Valid()
      ensures Orderly() && (!paused ==> Running(auction) && auction.wordId in words.owners)
      ensures words.Room(2) ==> words.Room(1)
    {
      hide WordsToken.Valid;
    }

    /** Handing over a word, or burning it, makes no word. */
    twostate lemma RoomStill()
      requires old(auction.wordId in words.owners)
      requires words.L() == old(words.L()).Moved(old(auction).wordId, old(auction).bidder)
      requires words.votes.blockNumber == old(words.votes.blockNumber)
      ensures old(words.Room(2)) ==> words.Room(2)
    {
      var l, l' := old(words.L()), words.L();
      assert l'.owners.Keys <= l.owners.Keys;
      SubsetSize(l'.owners.Keys, l.owners.Keys);
    }

    twostate lemma AloneStill()
      requires old(Alone()) && words.proxies == old(words.proxies)
      requires words.operatorApprovals == old(words.operatorApprovals) && words.forfeited == old(words.forfeited)
      requires words.votes.delegatee == old(words.votes.delegatee)
      ensures Alone()
    {
    }

    method Pause(sender: Address) returns (r: Outcome)
      requires Valid()
      modifies `paused
      ensures Valid()
      ensures r == if sender == owner && !old(paused) then Success else Reverted
      ensures paused == (old(paused) || r.Success?)
    {
      hide WordsToken.Valid;
      if sender != owner { return Reverted; }
      if paused { return Reverted; }
      paused := true;
      return Success;
    }

    /** Unpausing starts an auction unless one is still running, which is never
        overwritten. */
    method Unpause(sender: Address) returns (r: Outcome)
      requires Valid()
      modifies `auction, `paused, `bids,
               words`owners, words`balances, words`tokenApprovals, words`currentWordId, words`mints, words.list,
               words.votes`delegatee, words.votes`checkpoints, words.votes`numCheckpoints,
               words.votes`nonces, words.votes`events
      ensures Valid()
      ensures sender != owner || !old(paused) ==> r == Reverted
      ensures sender == owner && old(paused) && (Running(old(auction)) || old(words.Room(2))) ==> r.Success?
      ensures r.Success? && (Running(old(auction)) || old(words.Room(2))) ==>
                paused == (!Running(old(auction)) && old(words.RewardUnclaimed()))
      ensures Running(old(auction)) ==> auction == old(auction) && words.L() == old(words.L())
      ensures r.Success? && !Running(old(auction)) ==>
                if paused then auction == old(auction) else NewAuction(old(words.mints), old(words.owners))
      ensures !r.Success? ==> auction == old(auction) && paused == old(paused) && words.L() == old(words.L())
    {
      hide WordsToken.Valid;
      if sender != owner { return Reverted; }
      if !paused { return Reverted; }
      paused := false;
      r := Success;
      if auction.startTime == 0 || auction.settled {
        r := CreateAuction();
        if !r.Success? { paused := true; }
      }
    }

    method SetTimeBuffer(sender: Address, newTimeBuffer: nat) returns (r: Outcome)
      requires Valid()
      modifies `timeBuffer
      ensures Valid() && r == if sender == owner then Success else Reverted
      ensures timeBuffer == if r.Success? then newTimeBuffer else old(timeBuffer)
    {
      if sender != owner { return Reverted; }
      timeBuffer := newTimeBuffer;
      return Success;
    }

    method SetReservePrice(sender: Address, newReservePrice: nat) returns (r: Outcome)
      requires Valid()
      modifies `reservePrice
      ensures Valid() && r == if sender == owner then Success else Reverted
      ensures reservePrice == if r.Success? then newReservePrice else old(reservePrice)
    {
      if sender != owner { return Reverted; }
      reservePrice := newReservePrice;
      return Success;
    }

    /** Another increment starts the count of bids afresh at the leading one. */
    method SetMinBidIncrementPercentage(sender: Address, percentage: nat) returns (r: Outcome)
      requires Valid() && percentage < 256
      modifies `minBidIncrementPercentage, `bids
      ensures Valid() && r == if sender == owner then Success else Reverted
      ensures bids == if minBidIncrementPercentage == old(minBidIncrementPercentage) then old(bids)
                      else if auction.bidder == ZERO then [] else [auction.amount]
      ensures minBidIncrementPercentage == if r.Success? then percentage else old(minBidIncrementPercentage)
    {
      if sender != owner { return Reverted; }
      if percentage != minBidIncrementPercentage {
        bids := if auction.bidder == ZERO then [] else [auction.amount];
      }
      minBidIncrementPercentage := percentage;
      return Success;
    }

    /** ETH can be forced on the house without a bid; it is never paid out. */
    method ForceEther(amount: nat)
      requires Valid()
      modifies `balance, `forced
      ensures Valid() && balance == old(balance) + amount && forced == old(forced) + amount
    {
      hide WordsToken.Valid;
      balance, forced := balance + amount, forced + amount;
    }

    // ------------------------------------------------ what others do meanwhile

    /** Nobody else can move the word of a running auction. */
    method OutsiderTransfer(sender: Address, from: Address, to: Address, tokenId: int) returns (r: Outcome)
      requires Valid() && sender != self && sender != ZERO
      modifies words`owners, words`balances, words`tokenApprovals, words`currentWordId, words.list,
               words.votes`delegatee, words.votes`checkpoints, words.votes`numCheckpoints,
               words.votes`nonces, words.votes`events
      ensures Valid()
      ensures r == old(words.TransferOutcome(sender, from, to, tokenId))
      ensures words.L() == if r.Success? then old(words.L()).Moved(tokenId, to) else old(words.L())
      ensures r.Success? && Running(auction) ==> tokenId != auction.wordId
    {
      hide WordsToken.Valid, WordsToken.HookOutcome;
      r := words.TransferFrom(sender, from, to, tokenId);
    }

    method OutsiderApprove(sender: Address, to: Address, tokenId: int) returns (r: Outcome)
      requires Valid() && sender != self && sender != ZERO
      modifies words`tokenApprovals
      ensures Valid()
      ensures r.Success? <==> tokenId in words.owners && to != words.owners[tokenId] &&
                              (sender == words.owners[tokenId] || words.IsApprovedForAll(words.owners[tokenId], sender))
      ensures words.tokenApprovals ==
              if r.Success? then old(words.tokenApprovals)[tokenId := to] else old(words.tokenApprovals)
      ensures r.Success? && Running(auction) ==> tokenId != auction.wordId
    {
      hide WordsToken.Valid;
      r := words.Approve(sender, to, tokenId);
    }

    method OutsiderSetApprovalForAll(sender: Address, operator: Address, approved: bool) returns (r: Outcome)
      requires Valid() && sender != self && sender != ZERO
      modifies words`operatorApprovals
      ensures Valid() && (r.Success? <==> operator != sender)
      ensures r.Success? ==> words.operatorApprovals == old(words.operatorApprovals)[(sender, operator) := approved]
    {
      hide WordsToken.Valid;
      r := words.SetApprovalForAll(sender, operator, approved);
    }

    method OutsiderDelegate(sender: Address, delegatee: Address) returns (r: Outcome)
      requires Valid() && sender != self && sender != ZERO
      modifies words`owners, words`balances, words`tokenApprovals, words`currentWordId, words`forfeited, words.list,
               words.votes`delegatee, words.votes`checkpoints, words.votes`numCheckpoints,
               words.votes`nonces, words.votes`events
      ensures Valid()
      ensures var to := if delegatee == ZERO then sender else delegatee;
        && r == old(words.DelegateOutcome(sender, to))
        && words.L() == if r.Success? then old(words.L()).Delegated(sender, to) else old(words.L())
    {
      hide WordsToken.Valid, WordsToken.DelegateOutcome;
      r := words.Delegate(sender, delegatee);
      DelegateeOf(words);
    }

    method OutsiderDelegateBySig(signatory: Address, delegatee: Address, nonce: nat, expiry: nat) returns (r: Outcome)
      requires Valid() && signatory != self
      modifies words`owners, words`balances, words`tokenApprovals, words`currentWordId, words`forfeited, words.list,
               words.votes`delegatee, words.votes`checkpoints, words.votes`numCheckpoints,
               words.votes`nonces, words.votes`events
      ensures Valid()
      ensures words.L() == if r.Success? then old(words.L()).Delegated(signatory, delegatee) else old(words.L())
      ensures r == if signatory == ZERO || nonce != At(old(words.votes.nonces), signatory, 0)
                      || words.votes.timestamp > expiry then Reverted
                   else old(words.DelegateOutcome(signatory, delegatee))
    {
      hide WordsToken.Valid, WordsToken.DelegateOutcome;
      r := words.DelegateBySig(signatory, delegatee, nonce, expiry);
    }

    method NextBlock(elapsed: nat)
      requires Valid()
      modifies words.votes`blockNumber, words.votes`timestamp, words.votes`history
      ensures Valid() && words.L() == old(words.L())
      ensures words.votes.blockNumber == old(words.votes.blockNumber) + 1
      ensures words.votes.timestamp == old(words.votes.timestamp) + elapsed
      ensures words.votes.history == old(words.votes.history) + [words.L()]
    {
      hide WordsToken.Valid;
      words.NextBlock(elapsed);
    }
  }

  lemma DelegateeOf(words: WordsToken)
    ensures words.L().owners == words.owners && words.L().delegatee == words.votes.delegatee
            && words.L().forfeited == words.forfeited
  {
  }

  lemma NewWordsUnapproved(words: WordsToken)
    requires words.Valid()
    ensures forall id :: id !in words.owners ==> At(words.tokenApprovals, id, ZERO) == ZERO
    ensures words.votes.timestamp > 0
  {
  }

  /** Once its time has come a running auction can always be settled, while block
      numbers and the supply fit their widths: the token never refuses. */
  lemma SettlementSucceeds(h: WordsAuctionHouse)
    requires h.Orderly() && Running(h.auction)
    requires h.words.Room(1)
    ensures h.HandOverOutcome() == Success
  {
    hide WordsToken.Consistent, WordsToken.IdsBelowCounter, WordsToken.ApprovalsExist, WordsToken.HookOutcome,
         WordsToken.Room;
    DelegateeOf(h.words);
    MoveSucceeds(h.words, h.auction.wordId, h.auction.bidder);
  }

  // ------------------------------------------------------------- bid increments

  function Pow(b: nat, n: nat): nat {
    if n == 0 then 1 else b * Pow(b, n - 1)
  }

  /** Each bid reaches the one before plus `p` per cent of it, rounded down. */
  ghost predicate Increments(bids: seq<nat>, p: nat) {
    forall i :: 0 <= i < |bids| - 1 ==> bids[i + 1] >= NextBid(bids[i], p)
  }

  lemma IncrementsGrow(bids: seq<nat>, bid: nat, p: nat)
    requires Increments(bids, p)
    requires bids != [] ==> bid >= NextBid(bids[|bids| - 1], p)
    ensures Increments(bids + [bid], p)
  {
    hide NextBid;
  }

  lemma OneIncrement(a: nat, b: nat, p: nat)
    requires b >= NextBid(a, p)
    ensures 100 * (p * b - 99) >= (100 + p) * (p * a - 99)
  {
    assert 100 * b >= 100 * a + (a * p - 99);
    Scale(p, 100 * b, 100 * a + (a * p - 99));
    assert p * (100 * b) == 100 * (p * b);
    assert p * (100 * a + (a * p - 99)) == 100 * (p * a) + p * (p * a) - 99 * p;
    assert (100 + p) * (p * a - 99) == 100 * (p * a) + p * (p * a) - 9900 - 99 * p;
  }

  lemma Scale(p: nat, x: int, y: int)
    requires x >= y
    ensures p * x >= p * y
  {
  }

  /** Bids compound in spite of the rounding: `n` increments after a first bid
      `a`, the leading bid `b` satisfies 100^n (p b - 99) >= (100 + p)^n (p a - 99). */
  lemma {:induction false} BidsCompound(bids: seq<nat>, p: nat)
    requires bids != [] && Increments(bids, p)
    ensures var n := |bids| - 1;
      Pow(100, n) * (p * bids[n] - 99) >= Pow(100 + p, n) * (p * bids[0] - 99)
  {
    var n := |bids| - 1;
    if n > 0 {
      var front := bids[..n];
      BidsCompound(front, p);
      OneIncrement(bids[n - 1], bids[n], p);
      CompoundStep(Pow(100, n - 1), Pow(100 + p, n - 1), 100 + p,
                   p * bids[0] - 99, p * bids[n - 1] - 99, p * bids[n] - 99);
      assert Pow(100, n) == 100 * Pow(100, n - 1) && Pow(100 + p, n) == (100 + p) * Pow(100 + p, n - 1);
    }
  }

  /** So the leading bid of every auction in every run compounds over the bids made
      since the increment was last set. */
  lemma LeadingBidCompounds(h: WordsAuctionHouse)
    requires h.Valid() && h.auction.bidder != ZERO
    ensures var n, p := |h.bids| - 1, h.minBidIncrementPercentage;
      n >= 0 && Pow(100, n) * (p * h.auction.amount - 99) >= Pow(100 + p, n) * (p * h.bids[0] - 99)
  {
    hide Pow, WordsToken.Valid;
    BidsCompound(h.bids, h.minBidIncrementPercentage);
  }

  lemma CompoundStep(c: nat, d: nat, q: nat, x0: int, x: int, y: int)
    requires c * x >= d * x0 && 100 * y >= q * x
    ensures (100 * c) * y >= (q * d) * x0
  {
    Scale(c, 100 * y, q * x);
    Scale(q, c * x, d * x0);
    assert c * (100 * y) == (100 * c) * y;
    assert c * (q * x) == q * (c * x);
    assert q * (d * x0) == (q * d) * x0;
  }
}
