/** The token's event log, and the state that can be read back from it. */
module EventLog {
  import opened Basics
  import opened Ledgers

  datatype Event =
    | Transfer(from: Address, to: Address, wordId: int)
    | DelegateChanged(delegator: Address, fromDelegate: Address, toDelegate: Address)
    | DelegateVotesChanged(delegate: Address, previousBalance: nat, newBalance: nat)

  function Front(log: seq<Event>): seq<Event>
    requires log != []
  {
    log[..|log| - 1]
  }

  function Last(log: seq<Event>): Event
    requires log != []
  {
    log[|log| - 1]
  }

  /** The votes last announced for `a`. */
  function VotesIn(log: seq<Event>, a: Address): nat {
    if log == [] then 0
    else if Last(log).DelegateVotesChanged? && Last(log).delegate == a then Last(log).newBalance
    else VotesIn(Front(log), a)
  }

  /** Words received less words sent, as announced. */
  function BalanceIn(log: seq<Event>, a: Address): int {
    if log == [] then 0
    else BalanceIn(Front(log), a) + Received(Last(log), a)
  }

  /** The receiver of the last transfer of a word. */
  function OwnerIn(log: seq<Event>, id: int): Address {
    if log == [] then ZERO
    else if Last(log).Transfer? && Last(log).wordId == id then Last(log).to
    else OwnerIn(Front(log), id)
  }

  /** The transfers alone. */
  function Transfers(log: seq<Event>): seq<Event> {
    if log == [] then []
    else if Last(log).Transfer? then Transfers(Front(log)) + [Last(log)]
    else Transfers(Front(log))
  }

  /** Balances and owners are read from the transfers. */
  lemma {:induction false} ReadFromTransfers(log: seq<Event>, a: Address, id: int)
    ensures BalanceIn(Transfers(log), a) == BalanceIn(log, a) && OwnerIn(Transfers(log), id) == OwnerIn(log, id)
  {
    if log != [] {
      ReadFromTransfers(Front(log), a, id);
      if Last(log).Transfer? { Append(Transfers(Front(log)), Last(log)); }
    }
  }

  function Received(e: Event, a: Address): int {
    match e
    case Transfer(from, to, _) => (if to == a then 1 else 0) - (if from == a then 1 else 0)
    case _ => 0
  }

  /** Every vote change announces the right previous votes, and a real change
      of an account other than the zero address. */
  predicate Faithful(log: seq<Event>) {
    log == [] ||
    (&& Faithful(Front(log))
     && (Last(log).DelegateVotesChanged? ==>
           && Last(log).delegate != ZERO
           && Last(log).previousBalance == VotesIn(Front(log), Last(log).delegate)
           && Last(log).previousBalance != Last(log).newBalance))
  }

  lemma Append(log: seq<Event>, e: Event)
    ensures Front(log + [e]) == log && Last(log + [e]) == e
  {
  }

  /** The vote changes announced when `amount` votes move between two accounts. */
  function MoveEvents(srcVotes: nat, dstVotes: nat, src: Address, dst: Address, amount: nat): seq<Event>
    requires src != dst && src != ZERO ==> amount <= srcVotes
  {
    if src == dst || amount == 0 then []
    else (if src != ZERO then [DelegateVotesChanged(src, srcVotes, srcVotes - amount)] else [])
         + (if dst != ZERO then [DelegateVotesChanged(dst, dstVotes, dstVotes + amount)] else [])
  }

  lemma MoveEventsFaithful(log: seq<Event>, src: Address, dst: Address, amount: nat, a: Address)
    requires Faithful(log)
    requires src != dst && src != ZERO ==> amount <= VotesIn(log, src)
    ensures var log' := log + MoveEvents(VotesIn(log, src), VotesIn(log, dst), src, dst, amount);
      && Faithful(log')
      && Transfers(log') == Transfers(log)
      && VotesIn(log', a) == (if src == dst || amount == 0 || a == ZERO then VotesIn(log, a)
                              else if a == src then VotesIn(log, a) - amount
                              else if a == dst then VotesIn(log, a) + amount
                              else VotesIn(log, a))
  {
    hide Faithful, VotesIn, Transfers;
    if src != dst && amount != 0 {
      var s, d := VotesIn(log, src), VotesIn(log, dst);
      var mid := if src != ZERO then log + [DelegateVotesChanged(src, s, s - amount)] else log;
      if src != ZERO { VotesAnnounced(log, src, s - amount, a); VotesAnnounced(log, src, s - amount, dst); }
      var log' := if dst != ZERO then mid + [DelegateVotesChanged(dst, d, d + amount)] else mid;
      if dst != ZERO { VotesAnnounced(mid, dst, d + amount, a); }
      assert log + MoveEvents(s, d, src, dst, amount) == log';
    } else {
      assert log + [] == log;
    }
  }

  lemma VotesAnnounced(log: seq<Event>, delegate: Address, votes: nat, a: Address)
    requires Faithful(log) && delegate != ZERO && votes != VotesIn(log, delegate)
    ensures var log' := log + [DelegateVotesChanged(delegate, VotesIn(log, delegate), votes)];
      && Faithful(log') && Transfers(log') == Transfers(log)
      && VotesIn(log', a) == if a == delegate then votes else VotesIn(log, a)
  {
    Append(log, DelegateVotesChanged(delegate, VotesIn(log, delegate), votes));
  }

  /** A transfer event changes the announced balances and no announced votes. */
  lemma TransferAppended(log: seq<Event>, from: Address, to: Address, id: int)
    requires Faithful(log)
    ensures var e := Transfer(from, to, id); var log' := log + [e];
      && Faithful(log')
      && Transfers(log') == Transfers(log) + [e]
      && forall a :: VotesIn(log', a) == VotesIn(log, a)
  {
    Append(log, Transfer(from, to, id));
  }

  lemma DelegateChangeAppended(log: seq<Event>, delegator: Address, from: Address, to: Address)
    requires Faithful(log)
    ensures var log' := log + [DelegateChanged(delegator, from, to)];
      && Faithful(log')
      && Transfers(log') == Transfers(log)
      && forall a :: VotesIn(log', a) == VotesIn(log, a)
  {
    Append(log, DelegateChanged(delegator, from, to));
  }

  /** Read back, the transfers tell who owns which word, how many words each account
      owns, and through the zero address how many there are. */
  ghost predicate Tells(log: seq<Event>, l: Ledger) {
    && (forall id :: OwnerIn(log, id) == OwnerOf(l, id))
    && (forall a :: a != ZERO ==> BalanceIn(log, a) == l.Balance(a))
    && BalanceIn(log, ZERO) + l.Supply() == 0
  }

  lemma NothingTold()
    ensures Tells([], EMPTY)
  {
    assert forall a :: OwnedBy(EMPTY.owners, a) == {};
  }

  lemma TellsSame(log: seq<Event>, log': seq<Event>, l: Ledger)
    requires Tells(log, l) && Transfers(log') == Transfers(log)
    ensures Tells(log', l)
  {
    forall id, a ensures OwnerIn(log', id) == OwnerIn(log, id) && BalanceIn(log', a) == BalanceIn(log, a) {
      ReadFromTransfers(log, a, id);
      ReadFromTransfers(log', a, id);
    }
  }

  lemma TellsOwners(log: seq<Event>, l: Ledger, l': Ledger)
    requires Tells(log, l) && l'.owners == l.owners
    ensures Tells(log, l')
  {
  }

  lemma MovedSupply(l: Ledger, id: int, to: Address)
    ensures l.Moved(id, to).Supply() == l.Supply() - (if id in l.owners then 1 else 0) + (if to == ZERO then 0 else 1)
  {
    hide Ledger.Moved, Ledger.Supply;
    MovedKeys(l, id, to);
    SizeOfSwap(l.owners.Keys, id, to != ZERO);
    SupplyOfKeys(l);
    SupplyOfKeys(l.Moved(id, to));
  }

  lemma MovedKeys(l: Ledger, id: int, to: Address)
    ensures l.Moved(id, to).owners.Keys == (l.owners.Keys - {id}) + (if to != ZERO then {id} else {})
  {
  }

  lemma SupplyOfKeys(l: Ledger)
    ensures l.Supply() == |l.owners.Keys|
  {
  }

  /** One transfer event from the owner for a transfer or a burn. */
  lemma TellsMoved(log: seq<Event>, log': seq<Event>, l: Ledger, id: int, to: Address)
    requires Tells(log, l) && l.Wf() && id in l.owners
    requires Transfers(log') == Transfers(log) + [Transfer(l.owners[id], to, id)]
    ensures Tells(log', l.Moved(id, to))
  {
    hide Ledger.Balance, Ledger.Supply;
    var e := Transfer(l.owners[id], to, id);
    Append(Transfers(log), e);
    MovedBalances(l, id, to);
    MovedSupply(l, id, to);
    forall i, a
      ensures OwnerIn(log', i) == if i == id then to else OwnerIn(log, i)
      ensures BalanceIn(log', a) == BalanceIn(log, a) + Received(e, a)
    {
      ReadFromTransfers(log, a, i);
      ReadFromTransfers(log', a, i);
    }
  }

  /** Two transfer events for a mint: to the creator, and from it to the receiver. */
  lemma TellsMinted(log: seq<Event>, log': seq<Event>, l: Ledger, id: int, creator: Address, to: Address)
    requires Tells(log, l) && l.Wf() && id !in l.owners && to != ZERO
    requires Transfers(log') == Transfers(log) + [Transfer(ZERO, creator, id), Transfer(creator, to, id)]
    ensures Tells(log', l.Moved(id, to))
  {
    hide Ledger.Balance, Ledger.Supply;
    var d, e := Transfer(ZERO, creator, id), Transfer(creator, to, id);
    Append(Transfers(log), d);
    Append(Transfers(log) + [d], e);
    assert Transfers(log) + [d, e] == Transfers(log) + [d] + [e];
    MovedBalances(l, id, to);
    MovedSupply(l, id, to);
    forall i, a
      ensures OwnerIn(log', i) == if i == id then to else OwnerIn(log, i)
      ensures BalanceIn(log', a) == BalanceIn(log, a) + Received(d, a) + Received(e, a)
    {
      ReadFromTransfers(log, a, i);
      ReadFromTransfers(log', a, i);
    }
  }
}
