/** Delegation and vote checkpoints in storage mappings. */
module ERC721Checkpointables {
  import opened Basics
  import opened Ledgers
  import opened Checkpoints
  import opened EventLog

  class ERC721Checkpointable {
    var delegatee: map<Address, Address>
    var checkpoints: map<(Address, nat), Checkpoint>
    var numCheckpoints: map<Address, nat>
    var nonces: map<Address, nat>

    // the chain around the contract
    var blockNumber: nat
    var timestamp: nat
    var events: seq<Event>

    /** The ledger at the end of each past block. */
    ghost var history: seq<Ledger>

    function T(a: Address): seq<Checkpoint>
      reads this
    {
      Trail(checkpoints, numCheckpoints, a)
    }

    /** The checkpoints give the votes of `l` now, and for every past block the
        votes at its end; the events announced each change. */
    ghost predicate Describes(l: Ledger)
      reads this
    {
      && |history| == blockNumber
      && (forall a :: Replays(T(a), a, blockNumber, l, history))
      && Faithful(events)
      && (forall a :: VotesIn(events, a) == Latest(T(a)))
    }

    constructor (blockNumber: nat, timestamp: nat)
      ensures Describes(EMPTY) && delegatee == map[] && events == []
      ensures this.blockNumber == blockNumber && this.timestamp == timestamp
      ensures history == seq(blockNumber, _ => EMPTY)
    {
      delegatee, checkpoints, numCheckpoints, nonces := map[], map[], map[], map[];
      this.blockNumber, this.timestamp, events := blockNumber, timestamp, [];
      history := seq(blockNumber, _ => EMPTY);
      new;
      EmptyVotes();
      assert forall a :: T(a) == [];
    }

    method Restore(delegatee: map<Address, Address>, checkpoints: map<(Address, nat), Checkpoint>,
                   numCheckpoints: map<Address, nat>, nonces: map<Address, nat>, events: seq<Event>)
      modifies `delegatee, `checkpoints, `numCheckpoints, `nonces, `events
      ensures this.delegatee == delegatee && this.checkpoints == checkpoints
      ensures this.numCheckpoints == numCheckpoints && this.nonces == nonces && this.events == events
    {
      this.delegatee, this.nonces, this.events := delegatee, nonces, events;
      this.checkpoints, this.numCheckpoints := checkpoints, numCheckpoints;
    }

    function Delegates(delegator: Address): Address
      reads `delegatee
    {
      var current := At(delegatee, delegator, ZERO);
      if current == ZERO then delegator else current
    }

    method GetCurrentVotes(account: Address, ghost l: Ledger) returns (votes: nat)
      requires Describes(l)
      ensures votes == l.Votes(account)
    {
      assert Replays(T(account), account, blockNumber, l, history);
      var nCheckpoints := At(numCheckpoints, account, 0);
      votes := if nCheckpoints > 0 then At(checkpoints, (account, nCheckpoints - 1), Checkpoint(0, 0)).votes else 0;
    }

    /** Bisection over the checkpoints gives exactly the votes the account had
        at the end of the block, in every run. */
    method GetPriorVotes(account: Address, b: nat, ghost l: Ledger) returns (r: Outcome, votes: nat)
      requires Describes(l)
      ensures r == if b < blockNumber then Success else Reverted
      ensures r.Success? ==> votes == history[b].Votes(account)
    {
      if b >= blockNumber { return Reverted, 0; }
      ghost var t := T(account);
      assert Replays(t, account, blockNumber, l, history);
      var nCheckpoints := At(numCheckpoints, account, 0);
      if nCheckpoints == 0 { return Success, 0; }
      if At(checkpoints, (account, nCheckpoints - 1), Checkpoint(0, 0)).fromBlock <= b {
        return Success, At(checkpoints, (account, nCheckpoints - 1), Checkpoint(0, 0)).votes;
      }
      if At(checkpoints, (account, 0), Checkpoint(0, 0)).fromBlock > b {
        LookupBefore(t, b);
        return Success, 0;
      }
      var lower: nat, upper: nat := 0, nCheckpoints - 1;
      while upper > lower
        invariant 0 <= lower <= upper < nCheckpoints == |t|
        invariant t[lower].fromBlock <= b
        invariant upper + 1 < |t| ==> b < t[upper + 1].fromBlock
      {
        var center: nat := upper - (upper - lower) / 2;
        var cp := At(checkpoints, (account, center), Checkpoint(0, 0));
        if cp.fromBlock == b {
          LookupBracket(t, b, center);
          return Success, cp.votes;
        } else if cp.fromBlock < b {
          lower := center;
        } else {
          upper := center - 1;
        }
      }
      LookupBracket(t, b, lower);
      return Success, At(checkpoints, (account, lower), Checkpoint(0, 0)).votes;
    }

    method WriteCheckpoint(account: Address, nCheckpoints: nat, oldVotes: nat, newVotes: nat) returns (r: Outcome)
      requires nCheckpoints == At(numCheckpoints, account, 0)
      modifies `checkpoints, `numCheckpoints, `events
      ensures r == WriteOutcome(old(T(account)), blockNumber)
      ensures r.Success? ==> T(account) == Written(old(T(account)), blockNumber, newVotes)
      ensures r.Success? ==> events == old(events) + [DelegateVotesChanged(account, oldVotes, newVotes)]
      ensures forall a :: a != account ==> T(a) == old(T(a))
    {
      if blockNumber > MAX_UINT32 { return Reverted; }
      if nCheckpoints > 0 && At(checkpoints, (account, nCheckpoints - 1), Checkpoint(0, 0)).fromBlock == blockNumber {
        checkpoints := checkpoints[(account, nCheckpoints - 1 as nat) := Checkpoint(blockNumber, newVotes)];
      } else {
        if nCheckpoints >= MAX_UINT32 { return Panicked; }
        checkpoints := checkpoints[(account, nCheckpoints) := Checkpoint(blockNumber, newVotes)];
        numCheckpoints := numCheckpoints[account := nCheckpoints + 1];
      }
      events := events + [DelegateVotesChanged(account, oldVotes, newVotes)];
      return Success;
    }

    /** The number of checkpoints of an account, and its votes in the last one. */
    method LastCheckpoint(rep: Address) returns (num: nat, votes: nat)
      ensures num == At(numCheckpoints, rep, 0) && votes == Latest(T(rep))
    {
      num := At(numCheckpoints, rep, 0);
      votes := if num > 0 then At(checkpoints, (rep, num - 1), Checkpoint(0, 0)).votes else 0;
    }

    /** The writes of a vote move: the source first, then the destination. */
    method MoveCheckpoints(srcRep: Address, dstRep: Address, amount: nat) returns (r: Outcome)
      modifies `checkpoints, `numCheckpoints, `events
      ensures r == old(MoveOutcome(T(srcRep), T(dstRep), srcRep, dstRep, amount, blockNumber))
      ensures r.Success? ==> forall a :: T(a) == MovedTrail(old(T(a)), a, srcRep, dstRep, amount, blockNumber)
      ensures r.Success? ==>
              events == old(events) + MoveEvents(old(Latest(T(srcRep))), old(Latest(T(dstRep))), srcRep, dstRep, amount)
    {
      hide ERC721Checkpointable.T, Trail, Latest, Written;
      if srcRep != dstRep && amount > 0 {
        if srcRep != ZERO {
          var srcRepNum, srcRepOld := LastCheckpoint(srcRep);
          if amount > srcRepOld { return Reverted; }
          r := WriteCheckpoint(srcRep, srcRepNum, srcRepOld, srcRepOld - amount);
          if !r.Success? { return; }
        }
        if dstRep != ZERO {
          var dstRepNum, dstRepOld := LastCheckpoint(dstRep);
          if dstRepOld + amount > MAX_UINT96 { return Panicked; }
          r := WriteCheckpoint(dstRep, dstRepNum, dstRepOld, dstRepOld + amount);
          if !r.Success? { return; }
        }
      }
      return Success;
    }

    /** Moves votes the way the ledger does. The storage then describes the new
        ledger, which the caller has not written yet. */
    method MoveDelegates(srcRep: Address, dstRep: Address, amount: nat, ghost l: Ledger, ghost l': Ledger)
      returns (r: Outcome)
      requires Describes(l) && l.Wf() && l'.Wf()
      requires forall a :: a != ZERO ==> l'.Votes(a) == Shift(l.Votes(a), a, srcRep, dstRep, amount)
      modifies `checkpoints, `numCheckpoints, `events
      ensures r == old(MoveOutcome(T(srcRep), T(dstRep), srcRep, dstRep, amount, blockNumber))
      ensures r.Success? ==> Describes(l') && Transfers(events) == Transfers(old(events))
      ensures r.Success? ==>
              events == old(events) + MoveEvents(old(Latest(T(srcRep))), old(Latest(T(dstRep))), srcRep, dstRep, amount)
    {
      ghost var c, n := checkpoints, numCheckpoints;
      r := MoveCheckpoints(srcRep, dstRep, amount);
      if r.Success? {
        ghost var c', n' := checkpoints, numCheckpoints;
        assert forall a :: Trail(c, n, a) == old(T(a)) && Trail(c', n', a) == T(a);
        MovedDescribes((a: Address) => Trail(c, n, a), (a: Address) => Trail(c', n', a),
                       old(events), srcRep, dstRep, amount, blockNumber, l, l', history);
      }
    }

    /** The delegatee is stored first, then the delegator's whole balance moves
        from the account that represented it to the delegatee. */
    method DelegateVotes(delegator: Address, newDelegatee: Address, amount: nat, ghost l: Ledger) returns (r: Outcome)
      requires delegator != ZERO && l.Wf() && Describes(l) && delegatee == l.delegatee && amount == l.Balance(delegator)
      modifies `delegatee, `checkpoints, `numCheckpoints, `events
      ensures r == old(MoveOutcome(T(l.Rep(delegator)), T(newDelegatee), l.Rep(delegator), newDelegatee,
                                   amount, blockNumber))
      ensures r.Success? ==> var l' := l.Delegated(delegator, newDelegatee);
                l'.Wf() && delegatee == l'.delegatee && Describes(l')
                && Transfers(events) == Transfers(old(events))
      ensures r.Success? ==> var src := l.Rep(delegator);
                events == old(events) + [DelegateChanged(delegator, src, newDelegatee)]
                          + MoveEvents(old(Latest(T(src))), old(Latest(T(newDelegatee))), src, newDelegatee, amount)
    {
      var currentDelegate := Delegates(delegator);
      delegatee := delegatee[delegator := newDelegatee];
      events := events + [DelegateChanged(delegator, currentDelegate, newDelegatee)];
      DelegateChangeAppended(old(events), delegator, currentDelegate, newDelegatee);
      DelegatedAll(l, delegator, newDelegatee);
      assert forall a :: T(a) == old(T(a));
      r := MoveDelegates(currentDelegate, newDelegatee, amount, l, l.Delegated(delegator, newDelegatee));
    }

    method UseNonce(signatory: Address, ghost l: Ledger)
      requires Describes(l)
      modifies `nonces
      ensures Describes(l) && nonces == old(nonces)[signatory := At(old(nonces), signatory, 0) + 1]
    {
      nonces := nonces[signatory := At(nonces, signatory, 0) + 1];
      assert forall a :: T(a) == old(T(a));
    }

    /** Announces a transfer in the log shared by the whole token. */
    method EmitTransfer(from: Address, to: Address, tokenId: int, ghost l: Ledger)
      requires Describes(l)
      modifies `events
      ensures Describes(l) && events == old(events) + [Transfer(from, to, tokenId)]
      ensures Transfers(events) == Transfers(old(events)) + [Transfer(from, to, tokenId)]
    {
      TransferAppended(events, from, to, tokenId);
      events := events + [Transfer(from, to, tokenId)];
      assert forall a :: T(a) == old(T(a));
    }

    /** Time passes: the current block ends, and its ledger becomes history. */
    method NextBlock(elapsed: nat, ghost l: Ledger)
      requires Describes(l)
      modifies `blockNumber, `timestamp, `history
      ensures Describes(l) && history == old(history) + [l]
      ensures blockNumber == old(blockNumber) + 1 && timestamp == old(timestamp) + elapsed
    {
      blockNumber, timestamp := blockNumber + 1, timestamp + elapsed;
      history := history + [l];
      forall a ensures Replays(T(a), a, blockNumber, l, history) {
        assert T(a) == old(T(a));
        NextBlockReplays(T(a), a, old(blockNumber), l, old(history));
      }
    }
  }

  /** When the checkpoints have moved the votes that the ledger moved, they
      replay the new ledger, and so do the events. */
  lemma MovedDescribes(
    t: Address -> seq<Checkpoint>, t': Address -> seq<Checkpoint>, log: seq<Event>,
    src: Address, dst: Address, amount: nat, block: nat, l: Ledger, l': Ledger, history: seq<Ledger>)
    requires l.Wf() && l'.Wf() && (forall a :: Replays(t(a), a, block, l, history))
    requires Faithful(log) && (forall a :: VotesIn(log, a) == Latest(t(a)))
    requires MoveOutcome(t(src), t(dst), src, dst, amount, block).Success?
    requires forall a :: t'(a) == MovedTrail(t(a), a, src, dst, amount, block)
    requires forall a :: a != ZERO ==> l'.Votes(a) == Shift(l.Votes(a), a, src, dst, amount)
    ensures forall a :: Replays(t'(a), a, block, l', history)
    ensures var log' := log + MoveEvents(Latest(t(src)), Latest(t(dst)), src, dst, amount);
      Faithful(log') && Transfers(log') == Transfers(log) && forall a :: VotesIn(log', a) == Latest(t'(a))
  {
    ZeroHasNoVotes(l);
    ZeroHasNoVotes(l');
    forall a ensures Replays(t'(a), a, block, l', history) {
      assert Replays(t(a), a, block, l, history);
      if a != ZERO { MovedTrailReplays(t(a), a, src, dst, amount, block, l, l', history); }
    }
    var log' := log + MoveEvents(Latest(t(src)), Latest(t(dst)), src, dst, amount);
    forall a ensures VotesIn(log', a) == Latest(t'(a)) {
      assert Replays(t'(a), a, block, l', history) && Replays(t(a), a, block, l, history);
      MoveEventsFaithful(log, src, dst, amount, a);
    }
    MoveEventsFaithful(log, src, dst, amount, ZERO);
  }

  lemma EmptyVotes()
    ensures EMPTY.Wf()
    ensures forall a :: EMPTY.Votes(a) == 0 && EMPTY.Balance(a) == 0
  {
    forall a ensures EMPTY.Votes(a) == 0 && EMPTY.Balance(a) == 0 {
      assert EMPTY.Backing(a) == {};
      assert OwnedBy(EMPTY.owners, a) == {};
    }
  }
}
