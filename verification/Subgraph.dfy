/** The subgraph's handlers over their entity store, replaying the token's log.

    Entities are loaded as copies and written back when saved, so what one copy
    saves another may overwrite. */
module Subgraph {
  import opened Basics
  import opened EventLog

  datatype Account = Account(tokenBalanceRaw: int, totalTokensHeldRaw: int, delegate: Option<Address>)

  datatype Delegate = Delegate(delegatedVotesRaw: int, tokenHoldersRepresentedAmount: int)

  datatype Governance = Governance(
    totalTokenHolders: int, currentTokenHolders: int, currentDelegates: int, totalDelegates: int,
    delegatedVotesRaw: int)

  const NEW_ACCOUNT := Account(0, 0, None)
  const NEW_DELEGATE := Delegate(0, 0)
  const NEW_GOVERNANCE := Governance(0, 0, 0, 0, 0)

  type Accounts = map<Address, Account>
  type Delegates = map<Address, Delegate>

  // -------------------------------------------------- what the log amounts to

  /** What one event adds to the indexed balance of an account: a transfer between
      equal ends adds one, since the copy saved last has only been credited. */
  function Indexed(e: Event, a: Address): int {
    match e
    case Transfer(from, to, _) =>
      (if to == a then 1 else 0) - (if from == a && from != ZERO && from != to then 1 else 0)
    case _ => 0
  }

  function IndexedBalance(log: seq<Event>, a: Address): int {
    if log == [] then 0 else IndexedBalance(Front(log), a) + Indexed(Last(log), a)
  }

  predicate IsSelfTransfer(e: Event) {
    e.Transfer? && e.from == e.to
  }

  /** The transfers of an account to itself. */
  function SelfTransfers(log: seq<Event>, a: Address): nat {
    if log == [] then 0
    else SelfTransfers(Front(log), a) + if IsSelfTransfer(Last(log)) && Last(log).from == a then 1 else 0
  }

  /** The transfers of an account to itself made at an indexed balance of one. */
  function LostHolders(log: seq<Event>): nat {
    if log == [] then 0
    else
      var e := Last(log);
      LostHolders(Front(log))
      + if IsSelfTransfer(e) && e.from != ZERO && IndexedBalance(Front(log), e.from) == 1 then 1 else 0
  }

  /** The indexed balance of an account is its balance on the chain plus the number
      of its transfers to itself. */
  lemma {:induction false} IndexedBalanceMeaning(log: seq<Event>, a: Address)
    requires a != ZERO
    ensures IndexedBalance(log, a) == BalanceIn(log, a) + SelfTransfers(log, a)
  {
    if log != [] {
      IndexedBalanceMeaning(Front(log), a);
    }
  }

  // --------------------------------------------------------- the entity store

  function Balance(accounts: Accounts, a: Address): int {
    if a in accounts then accounts[a].tokenBalanceRaw else 0
  }

  function Votes(delegates: Delegates, a: Address): int {
    if a in delegates then delegates[a].delegatedVotesRaw else 0
  }

  /** The accounts with a positive indexed balance, the zero address included. */
  function Holders(accounts: Accounts): set<Address> {
    set a | a in accounts && accounts[a].tokenBalanceRaw > 0
  }

  /** The delegates with votes. */
  function Voters(delegates: Delegates): set<Address> {
    set a | a in delegates && delegates[a].delegatedVotesRaw > 0
  }

  ghost function VotesFn(delegates: Delegates): Address -> int {
    (a: Address) => Votes(delegates, a)
  }

  lemma HoldersChange(accounts: Accounts, a: Address, account: Account)
    ensures |Holders(accounts[a := account])| == |Holders(accounts)|
              - (if Balance(accounts, a) > 0 then 1 else 0) + (if account.tokenBalanceRaw > 0 then 1 else 0)
  {
    var before, after := Holders(accounts), Holders(accounts[a := account]);
    assert before - {a} == after - {a};
    assert |before| == |before - {a}| + (if a in before then 1 else 0);
    assert |after| == |after - {a}| + (if a in after then 1 else 0);
  }

  lemma VotersChange(delegates: Delegates, a: Address, delegate: Delegate)
    ensures |Voters(delegates[a := delegate])| == |Voters(delegates)|
              - (if Votes(delegates, a) > 0 then 1 else 0) + (if delegate.delegatedVotesRaw > 0 then 1 else 0)
  {
    var before, after := Voters(delegates), Voters(delegates[a := delegate]);
    assert before - {a} == after - {a};
    assert |before| == |before - {a}| + (if a in before then 1 else 0);
    assert |after| == |after - {a}| + (if a in after then 1 else 0);
  }

  /** All indexed votes change by as much as the one delegate's. */
  lemma VotesSum(delegates: Delegates, a: Address, delegate: Delegate)
    ensures var after := delegates[a := delegate];
      Sum(after.Keys, VotesFn(after)) - Sum(delegates.Keys, VotesFn(delegates))
          == delegate.delegatedVotesRaw - Votes(delegates, a)
  {
    hide Sum;
    var after := delegates[a := delegate];
    var f, g := VotesFn(delegates), VotesFn(after);
    forall x | x in delegates.Keys && x != a ensures f(x) == g(x) {}
    SumChange(delegates.Keys, f, g, a);
    assert after.Keys == delegates.Keys + {a};
  }

  class Store {
    var accounts: Accounts
    var delegates: Delegates
    var words: map<int, Address>  // the owner of each word entity
    var governance: Option<Governance>

    function Gov(): Governance
      reads `governance
    {
      if governance.Some? then governance.value else NEW_GOVERNANCE
    }

    /** Indexed balances, for every log. */
    ghost predicate BalancesMatch(log: seq<Event>)
      reads `accounts
    {
      forall a :: Balance(accounts, a) == IndexedBalance(log, a)
    }

    /** The current holders fall short of the accounts with a positive indexed
        balance by the holders lost to transfers between equal ends. */
    ghost predicate HoldersMatch(log: seq<Event>)
      reads `accounts, `governance
    {
      Gov().currentTokenHolders + LostHolders(log) == |Holders(accounts)|
    }

    /** Votes and delegates, for logs that announce votes faithfully. */
    ghost predicate VotesMatch(log: seq<Event>)
      reads `delegates, `governance
    {
      && (forall a :: Votes(delegates, a) == VotesIn(log, a))
      && (Faithful(log) ==>
            && Gov().currentDelegates == |Voters(delegates)|
            && Gov().delegatedVotesRaw == Sum(delegates.Keys, VotesFn(delegates)))
    }

    /** Owners of words, and the count of transfers from the zero address less those
        to it. */
    ghost predicate WordsMatch(log: seq<Event>)
      reads `words, `governance
    {
      && (forall id :: At(words, id, ZERO) == OwnerIn(log, id))
      && Gov().totalTokenHolders == -BalanceIn(log, ZERO)
    }

    ghost predicate Matches(log: seq<Event>)
      reads this
    {
      BalancesMatch(log) && HoldersMatch(log) && VotesMatch(log) && WordsMatch(log)
    }

    constructor ()
      ensures Matches([])
    {
      accounts, delegates, words, governance := map[], map[], map[], None;
      new;
      assert Holders(accounts) == {} && Voters(delegates) == {} && delegates.Keys == {};
    }

    // ------------------------------------------------------ utils/helpers.ts

    method GetOrCreateAccount(id: Address) returns (account: Account)
      modifies `accounts
      ensures id in accounts && account == accounts[id]
      ensures accounts == if id in old(accounts) then old(accounts) else old(accounts)[id := NEW_ACCOUNT]
    {
      if id !in accounts {
        accounts := accounts[id := NEW_ACCOUNT];
      }
      account := accounts[id];
    }

    method GetGovernanceEntity() returns (g: Governance)
      ensures g == Gov()
    {
      g := if governance.Some? then governance.value else NEW_GOVERNANCE;
    }

    /** A new delegate bumps a counter on the governance entity, through a copy of
        its own. */
    method GetOrCreateDelegate(id: Address) returns (delegate: Delegate)
      modifies `delegates, `governance
      ensures id in delegates && delegate == delegates[id]
      ensures delegates == if id in old(delegates) then old(delegates) else old(delegates)[id := NEW_DELEGATE]
      ensures Gov() == old(Gov()).(totalDelegates := Gov().totalDelegates)
      ensures Gov().totalDelegates == old(Gov()).totalDelegates + if id in old(delegates) || id == ZERO then 0 else 1
    {
      if id !in delegates {
        if id != ZERO {
          var g := GetGovernanceEntity();
          governance := Some(g.(totalDelegates := g.totalDelegates + 1));
        }
        delegates := delegates[id := NEW_DELEGATE];
      }
      delegate := delegates[id];
    }

    // ------------------------------------------------------ nouns-erc-721.ts

    method HandleDelegateVotesChanged(id: Address, previousBalance: nat, newBalance: nat)
      modifies `delegates, `governance
      ensures delegates == old(delegates)[id := At(old(delegates), id, NEW_DELEGATE).(delegatedVotesRaw := newBalance)]
      ensures Gov() == VotesCounted(old(Gov()), previousBalance, newBalance)
    {
      var g := GetGovernanceEntity();
      var delegate := GetOrCreateDelegate(id);
      var votesDifference := newBalance - previousBalance;
      delegate := delegate.(delegatedVotesRaw := newBalance);
      delegates := delegates[id := delegate];
      if previousBalance == 0 && newBalance > 0 {
        g := g.(currentDelegates := g.currentDelegates + 1);
      }
      if newBalance == 0 {
        g := g.(currentDelegates := g.currentDelegates - 1);
      }
      g := g.(delegatedVotesRaw := g.delegatedVotesRaw + votesDifference);
      governance := Some(g);
    }

    /** The delegator's account names its new delegate; both delegates are loaded
        before either is saved, so of two equal ones the second survives. */
    method HandleDelegateChanged(delegator: Address, fromDelegate: Address, toDelegate: Address)
      modifies `accounts, `delegates, `governance
      ensures accounts ==
              old(accounts)[delegator := At(old(accounts), delegator, NEW_ACCOUNT).(delegate := Some(toDelegate))]
      ensures toDelegate in delegates && fromDelegate in delegates
      ensures var amount := At(old(delegates), toDelegate, NEW_DELEGATE).tokenHoldersRepresentedAmount;
        delegates[toDelegate].tokenHoldersRepresentedAmount == amount + 1
      ensures var amount := At(old(delegates), fromDelegate, NEW_DELEGATE).tokenHoldersRepresentedAmount;
        fromDelegate != toDelegate ==> delegates[fromDelegate].tokenHoldersRepresentedAmount == amount - 1
      ensures forall a :: Balance(accounts, a) == Balance(old(accounts), a)
      ensures |Holders(accounts)| == |Holders(old(accounts))|
      ensures SameVotes(old(delegates), delegates)
      ensures Gov() == old(Gov()).(totalDelegates := Gov().totalDelegates)
    {
      hide Sum, Holders, Voters;
      var tokenHolder := GetOrCreateAccount(delegator);
      var previousDelegate := GetOrCreateDelegate(fromDelegate);
      ghost var d1 := delegates;
      assert d1 == old(delegates)[fromDelegate := At(old(delegates), fromDelegate, NEW_DELEGATE)];
      SameDelegate(old(delegates), fromDelegate, At(old(delegates), fromDelegate, NEW_DELEGATE));
      var newDelegate := GetOrCreateDelegate(toDelegate);
      assert delegates == d1[toDelegate := At(d1, toDelegate, NEW_DELEGATE)];
      SameDelegate(d1, toDelegate, At(d1, toDelegate, NEW_DELEGATE));
      tokenHolder := tokenHolder.(delegate := Some(toDelegate));
      accounts := accounts[delegator := tokenHolder];
      assert accounts == old(accounts)[delegator := tokenHolder];
      SameAccount(old(accounts), delegator, tokenHolder);
      previousDelegate :=
        previousDelegate.(tokenHoldersRepresentedAmount := previousDelegate.tokenHoldersRepresentedAmount - 1);
      newDelegate := newDelegate.(tokenHoldersRepresentedAmount := newDelegate.tokenHoldersRepresentedAmount + 1);
      SameDelegate(delegates, fromDelegate, previousDelegate);
      delegates := delegates[fromDelegate := previousDelegate];
      SameDelegate(delegates, toDelegate, newDelegate);
      delegates := delegates[toDelegate := newDelegate];
    }

    /** The copy `g` agrees with the stored governance entity on what is counted here. */
    predicate Agrees(g: Governance)
      reads `governance
    {
      && Gov().currentTokenHolders == g.currentTokenHolders
      && Gov().currentDelegates == g.currentDelegates
      && Gov().delegatedVotesRaw == g.delegatedVotesRaw
    }

    /** Debits a copy of the sender and saves it. */
    method DebitHolder(from: Address, fromHolder: Account, g: Governance) returns (g': Governance)
      requires Agrees(g)
      modifies `accounts, `delegates, `governance
      ensures Agrees(g') && g'.currentDelegates == g.currentDelegates && g'.delegatedVotesRaw == g.delegatedVotesRaw
      ensures g'.currentTokenHolders == g.currentTokenHolders - if fromHolder.tokenBalanceRaw == 1 then 1 else 0
      ensures from in accounts && accounts == old(accounts)[from := accounts[from]]
      ensures accounts[from] == fromHolder.(tokenBalanceRaw := fromHolder.tokenBalanceRaw - 1,
                delegate := if fromHolder.tokenBalanceRaw == 1 then None else fromHolder.delegate)
      ensures g'.totalTokenHolders == g.totalTokenHolders
      ensures Gov().totalTokenHolders == old(Gov()).totalTokenHolders || Gov().totalTokenHolders == g.totalTokenHolders
      ensures delegates == WithDelegate(old(delegates), fromHolder.delegate)
      ensures SameVotes(old(delegates), delegates)
    {
      hide SameVotes;
      SavedDelegate(old(delegates), fromHolder.delegate);
      g' := g;
      var previous := fromHolder.tokenBalanceRaw;
      var holder := fromHolder.(tokenBalanceRaw := fromHolder.tokenBalanceRaw - 1);
      if fromHolder.delegate.Some? {
        var d := GetOrCreateDelegate(fromHolder.delegate.value);
      }
      if holder.tokenBalanceRaw == 0 && previous > 0 {
        g' := g.(currentTokenHolders := g.currentTokenHolders - 1);
        governance := Some(g');
        holder := holder.(delegate := None);
      } else if holder.tokenBalanceRaw > 0 && previous == 0 {
        assert false;  // a debit never makes a holder
      }
      accounts := accounts[from := holder];
    }

    /** Credits a copy of the receiver and saves it. */
    method CreditHolder(to: Address, toHolder: Account, g: Governance)
      requires Agrees(g)
      modifies `accounts, `delegates, `governance
      ensures Gov().currentDelegates == g.currentDelegates && Gov().delegatedVotesRaw == g.delegatedVotesRaw
      ensures Gov().currentTokenHolders == g.currentTokenHolders + if toHolder.tokenBalanceRaw == 0 then 1 else 0
      ensures to in accounts && accounts == old(accounts)[to := accounts[to]]
      ensures accounts[to] == toHolder.(tokenBalanceRaw := toHolder.tokenBalanceRaw + 1,
                totalTokensHeldRaw := toHolder.totalTokensHeldRaw + 1,
                delegate := if toHolder.tokenBalanceRaw == 0 then Some(to) else toHolder.delegate)
      ensures Gov().totalTokenHolders == old(Gov()).totalTokenHolders || Gov().totalTokenHolders == g.totalTokenHolders
      ensures delegates == WithDelegate(old(delegates), Some(to))
      ensures SameVotes(old(delegates), delegates)
    {
      hide SameVotes;
      SavedDelegate(old(delegates), Some(to));
      var d := GetOrCreateDelegate(to);
      var previous := toHolder.tokenBalanceRaw;
      var holder := toHolder.(tokenBalanceRaw := previous + 1, totalTokensHeldRaw := toHolder.totalTokensHeldRaw + 1);
      if holder.tokenBalanceRaw == 0 && previous > 0 {
        assert false;  // a credit never loses one
      } else if holder.tokenBalanceRaw > 0 && previous == 0 {
        governance := Some(g.(currentTokenHolders := g.currentTokenHolders + 1));
        holder := holder.(delegate := Some(to));
      }
      accounts := accounts[to := holder];
    }

    /** Both ends are loaded before either is saved, so of two equal ends only the
        credit survives. */
    method HandleTransfer(from: Address, to: Address, wordId: int)
      modifies `accounts, `delegates, `words, `governance
      ensures words == old(words)[wordId := to]
      ensures Gov().totalTokenHolders == old(Gov()).totalTokenHolders - Received(Transfer(from, to, wordId), ZERO)
      ensures forall a :: Balance(accounts, a) == Balance(old(accounts), a) + Indexed(Transfer(from, to, 0), a)
      ensures Gov().currentTokenHolders == HoldersCounted(old(Gov()).currentTokenHolders, old(accounts), from, to)
      ensures |Holders(accounts)| == |Holders(old(accounts))|
                - (if from != ZERO && from != to && Balance(old(accounts), from) == 1 then 1 else 0)
                + (if Balance(old(accounts), to) == 0 then 1 else 0)
      ensures Gov().currentDelegates == old(Gov()).currentDelegates
              && Gov().delegatedVotesRaw == old(Gov()).delegatedVotesRaw
      ensures SameVotes(old(delegates), delegates)
    {
      hide Holders, SameVotes, WithDelegate;
      var fromHolder := GetOrCreateAccount(from);
      var toHolder := GetOrCreateAccount(to);
      var g := GetGovernanceEntity();
      ghost var created := accounts;
      SameVotesRefl(delegates);
      if from == ZERO {
        g := g.(totalTokenHolders := g.totalTokenHolders + 1);
        governance := Some(g);
      } else {
        g := DebitHolder(from, fromHolder, g);
      }
      if to == ZERO {
        g := g.(totalTokenHolders := g.totalTokenHolders - 1);
        governance := Some(g);
      }
      ghost var between := delegates;
      CreditHolder(to, toHolder, g);
      words := words[wordId := to];
      SameVotesTrans(old(delegates), between, delegates);
      TransferSaved(old(accounts), created, accounts, from, to);
    }

    /** Each handler keeps the store in agreement with the log so far. */
    method Handle(e: Event, ghost log: seq<Event>)
      requires Matches(log)
      modifies `accounts, `delegates, `words, `governance
      ensures Matches(log + [e])
      ensures e.DelegateChanged? ==>
                e.delegator in accounts && accounts[e.delegator].delegate == Some(e.toDelegate)
    {
      hide Sum, Holders, Voters;
      Append(log, e);
      match e
      case Transfer(from, to, id) =>
        hide SameVotes;
        HandleTransfer(from, to, id);
        TransferStep(log, from, to, id, old(accounts), old(delegates), delegates);
      case DelegateVotesChanged(id, previousBalance, newBalance) =>
        HandleDelegateVotesChanged(id, previousBalance, newBalance);
        VotesStep(log, old(delegates), delegates, old(Gov()), id, previousBalance, newBalance);
      case DelegateChanged(delegator, fromDelegate, toDelegate) =>
        HandleDelegateChanged(delegator, fromDelegate, toDelegate);
    }

    /** Replaying a whole log. */
    method Replay(log: seq<Event>)
      requires Matches([])
      modifies `accounts, `delegates, `words, `governance
      ensures Matches(log)
    {
      for i := 0 to |log|
        invariant Matches(log[..i])
      {
        Handle(log[i], log[..i]);
        assert log[..i + 1] == log[..i] + [log[i]];
      }
      assert log[..|log|] == log;
    }
  }

  /** The votes, the delegates with votes and their sum are the same. */
  ghost predicate SameVotes(before: Delegates, after: Delegates) {
    && (forall x :: Votes(after, x) == Votes(before, x)) && |Voters(after)| == |Voters(before)|
    && Sum(after.Keys, VotesFn(after)) == Sum(before.Keys, VotesFn(before))
  }

  lemma SameVotesRefl(d: Delegates)
    ensures SameVotes(d, d)
  {
  }

  lemma SameVotesTrans(a: Delegates, b: Delegates, c: Delegates)
    requires SameVotes(a, b) && SameVotes(b, c)
    ensures SameVotes(a, c)
  {
    hide Sum, Voters;
  }

  /** Loading a delegate creates it if need be. */
  function WithDelegate(delegates: Delegates, id: Option<Address>): Delegates {
    match id
    case None => delegates
    case Some(d) => delegates[d := At(delegates, d, NEW_DELEGATE)]
  }

  lemma SavedDelegate(before: Delegates, id: Option<Address>)
    ensures SameVotes(before, WithDelegate(before, id))
  {
    hide Sum, Voters;
    if id.Some? {
      SameDelegate(before, id.value, At(before, id.value, NEW_DELEGATE));
    }
  }

  /** The accounts saved by a transfer. */
  lemma TransferSaved(before: Accounts, created: Accounts, after: Accounts, from: Address, to: Address)
    requires from in created && to in created
    requires forall a :: a in created ==> created[a] == At(before, a, NEW_ACCOUNT)
    requires forall a :: a in before ==> a in created
    requires created == before[from := created[from]][to := created[to]]
    requires to in after && after[to].tokenBalanceRaw == created[to].tokenBalanceRaw + 1
    requires from == ZERO || from == to ==> after == created[to := after[to]]
    requires from != ZERO && from != to ==> from in after && after == created[from := after[from]][to := after[to]]
                                            && after[from].tokenBalanceRaw == created[from].tokenBalanceRaw - 1
    ensures forall a :: Balance(after, a) == Balance(before, a) + Indexed(Transfer(from, to, 0), a)
    ensures |Holders(after)| == |Holders(before)|
              - (if from != ZERO && from != to && Balance(before, from) == 1 then 1 else 0)
              + (if Balance(before, to) == 0 then 1 else 0)
  {
    hide Holders;
    SameAccount(before, from, created[from]);
    SameAccount(before[from := created[from]], to, created[to]);
    if from == ZERO || from == to {
      HoldersChange(created, to, after[to]);
    } else {
      HoldersChange(created, from, after[from]);
      HoldersChange(created[from := after[from]], to, after[to]);
    }
  }

  function HoldersCounted(count: int, accounts: Accounts, from: Address, to: Address): int {
    count - (if from != ZERO && Balance(accounts, from) == 1 then 1 else 0)
        + (if Balance(accounts, to) == 0 then 1 else 0)
  }

  /** What a vote change does to the governance entity. */
  function VotesCounted(g: Governance, previousBalance: nat, newBalance: nat): Governance {
    g.(currentDelegates := g.currentDelegates + (if previousBalance == 0 && newBalance > 0 then 1 else 0)
                                            - (if newBalance == 0 then 1 else 0),
       delegatedVotesRaw := g.delegatedVotesRaw + newBalance - previousBalance)
  }

  /** Saving an entity whose counted field is unchanged changes no count. */
  lemma SameDelegate(delegates: Delegates, a: Address, delegate: Delegate)
    requires delegate.delegatedVotesRaw == Votes(delegates, a)
    ensures var after := delegates[a := delegate];
      && (forall x :: Votes(after, x) == Votes(delegates, x)) && |Voters(after)| == |Voters(delegates)|
      && Sum(after.Keys, VotesFn(after)) == Sum(delegates.Keys, VotesFn(delegates))
  {
    hide Sum, Voters;
    VotersChange(delegates, a, delegate);
    VotesSum(delegates, a, delegate);
  }

  lemma SameAccount(accounts: Accounts, a: Address, account: Account)
    requires account.tokenBalanceRaw == Balance(accounts, a)
    ensures var after := accounts[a := account];
      (forall x :: Balance(after, x) == Balance(accounts, x)) && |Holders(after)| == |Holders(accounts)|
  {
    hide Holders;
    HoldersChange(accounts, a, account);
  }

  /** Vote changes of a faithful log keep the votes and the delegates counted right. */
  lemma VotesStep(log: seq<Event>, before: Delegates, after: Delegates, g: Governance, id: Address,
      previousBalance: nat, newBalance: nat)
    requires forall a :: Votes(before, a) == VotesIn(log, a)
    requires after == before[id := At(before, id, NEW_DELEGATE).(delegatedVotesRaw := newBalance)]
    ensures var log' := log + [DelegateVotesChanged(id, previousBalance, newBalance)];
      var g' := VotesCounted(g, previousBalance, newBalance);
      && (forall a :: Votes(after, a) == VotesIn(log', a))
      && (Faithful(log') && g.currentDelegates == |Voters(before)|
          && g.delegatedVotesRaw == Sum(before.Keys, VotesFn(before)) ==>
            Faithful(log) && g'.currentDelegates == |Voters(after)|
            && g'.delegatedVotesRaw == Sum(after.Keys, VotesFn(after)))
  {
    hide Sum, Voters;
    Append(log, DelegateVotesChanged(id, previousBalance, newBalance));
    VotersChange(before, id, after[id]);
    VotesSum(before, id, after[id]);
  }

  lemma TransferStep(log: seq<Event>, from: Address, to: Address, id: int, before: Accounts, d: Delegates,
      d': Delegates)
    requires forall a :: Balance(before, a) == IndexedBalance(log, a)
    requires SameVotes(d, d')
    ensures var e := Transfer(from, to, id); var log' := log + [e];
      && (forall a :: IndexedBalance(log', a) == IndexedBalance(log, a) + Indexed(Transfer(from, to, 0), a))
      && LostHolders(log') ==
         LostHolders(log) + (if from == to && from != ZERO && Balance(before, from) == 1 then 1 else 0)
      && (forall a :: VotesIn(log', a) == VotesIn(log, a)) && (Faithful(log') ==> Faithful(log))
      && (forall i :: OwnerIn(log', i) == if i == id then to else OwnerIn(log, i))
      && BalanceIn(log', ZERO) == BalanceIn(log, ZERO) + Received(e, ZERO)
      && (forall a :: Votes(d', a) == Votes(d, a)) && |Voters(d')| == |Voters(d)|
      && Sum(d'.Keys, VotesFn(d')) == Sum(d.Keys, VotesFn(d))
  {
    hide Sum, Voters;
    Append(log, Transfer(from, to, id));
  }
}
