/** The subgraph, replaying the token's log, agrees with the token. */
module IndexAgreement {
  import opened Basics
  import opened Ledgers
  import opened Checkpoints
  import opened EventLog
  import opened WordsTokens
  import S = Subgraph

  lemma TokenLog(t: WordsToken)
    requires t.Valid()
    ensures t.L().Wf() && Faithful(t.votes.events)
    ensures forall a :: VotesIn(t.votes.events, a) == t.L().Votes(a)
    ensures Tells(t.votes.events, t.L())
  {
    forall a ensures VotesIn(t.votes.events, a) == t.L().Votes(a) {
      assert Replays(t.votes.T(a), a, t.votes.blockNumber, t.L(), t.votes.history);
    }
  }

  /** Account by account: the indexed votes are the votes on the chain, and the
      indexed balance is the balance on the chain plus one for each transfer of
      the account to itself. */
  lemma AccountsAgree(store: S.Store, t: WordsToken, a: Address)
    requires t.Valid() && store.Matches(t.votes.events)
    ensures S.Votes(store.delegates, a) == t.L().Votes(a)
    ensures a != ZERO ==> S.Balance(store.accounts, a) == t.L().Balance(a) + S.SelfTransfers(t.votes.events, a)
  {
    hide WordsToken.Valid, S.Store.HoldersMatch;
    TokenLog(t);
    if a != ZERO { S.IndexedBalanceMeaning(t.votes.events, a); }
  }

  /** Every word's indexed owner is its owner on the chain, and the indexer's total
      token holders, which it counts per transfer, are the total supply. */
  lemma WordsAgree(store: S.Store, t: WordsToken, id: int)
    requires t.Valid() && store.Matches(t.votes.events)
    ensures At(store.words, id, ZERO) == At(t.owners, id, ZERO)
    ensures store.Gov().totalTokenHolders == |t.owners|
  {
    hide WordsToken.Valid, S.Store.HoldersMatch, S.Store.VotesMatch, S.Store.BalancesMatch;
    TokenLog(t);
  }

  /** The delegate count is the number of accounts with votes, and the holder count
      falls short of the accounts with a positive indexed balance by the holders
      lost to transfers between equal ends: without such transfers it is exact. */
  lemma CountsAgree(store: S.Store, t: WordsToken)
    requires t.Valid() && store.Matches(t.votes.events)
    ensures store.Gov().currentDelegates == |S.Voters(store.delegates)|
    ensures forall a :: a in S.Voters(store.delegates) <==> t.L().Votes(a) > 0
    ensures store.Gov().currentTokenHolders == |S.Holders(store.accounts)| - S.LostHolders(t.votes.events)
    ensures forall a :: a in S.Holders(store.accounts) <==> S.IndexedBalance(t.votes.events, a) > 0
  {
    hide WordsToken.Valid, Sum;
    TokenLog(t);
    forall a ensures a in S.Voters(store.delegates) <==> t.L().Votes(a) > 0 {
      assert S.Votes(store.delegates, a) == t.L().Votes(a);
    }
    forall a ensures a in S.Holders(store.accounts) <==> S.IndexedBalance(t.votes.events, a) > 0 {
      assert S.Balance(store.accounts, a) == S.IndexedBalance(t.votes.events, a);
    }
  }

  /** The sum over a set does not change with accounts that count for nothing. */
  lemma {:induction false} SumExtend(s: set<Address>, u: set<Address>, f: Address -> int)
    requires s <= u && forall x :: x in u - s ==> f(x) == 0
    ensures Sum(u, f) == Sum(s, f)
    decreases u - s
  {
    if u - s != {} {
      var x := PickFrom(u - s);
      SumTake(u, f, x);
      assert (u - {x}) - s < u - s;
      SumExtend(s, u - {x}, f);
    } else {
      assert forall x :: x in u ==> x in u - s || x in s;
      assert u == s;
    }
  }

  lemma {:induction false} SumZero(s: set<Address>, f: Address -> int)
    requires forall x :: x in s ==> f(x) == 0
    ensures Sum(s, f) == 0
    decreases s
  {
    if s != {} {
      var x := PickFrom(s);
      SumTake(s, f, x);
      SumZero(s - {x}, f);
    }
  }

  /** The indexed total, together with all forfeited votes, is the total supply;
      with conserved votes it is the total supply. */
  lemma TotalAgrees(store: S.Store, t: WordsToken, s: set<Address>)
    requires t.Valid() && store.Matches(t.votes.events)
    requires store.delegates.Keys <= s
    requires forall id :: id in t.L().owners ==> t.L().Rep(t.L().owners[id]) in s
    ensures store.Gov().delegatedVotesRaw + Sum(s, ForfeitedOf(t.L())) == t.L().Supply()
    ensures t.L().Conserved() ==> store.Gov().delegatedVotesRaw == t.L().Supply()
  {
    hide WordsToken.Valid, Sum, WordsToken.L;
    TokenLog(t);
    var l := t.L();
    var f, g := S.VotesFn(store.delegates), VotesOf(l);
    var keys := store.delegates.Keys;
    forall x | x in keys ensures f(x) == g(x) { VotesAt(store, t, x); }
    SumSame(keys, f, g);
    forall x | x in s - keys ensures g(x) == 0 { VotesAt(store, t, x); }
    SumExtend(keys, s, g);
    VotesAndForfeitsMakeSupply(l, s);
    if l.Conserved() { SumZero(s, ForfeitedOf(l)); }
  }

  lemma VotesAt(store: S.Store, t: WordsToken, a: Address)
    requires t.Valid() && store.Matches(t.votes.events)
    ensures S.VotesFn(store.delegates)(a) == VotesOf(t.L())(a)
    ensures a !in store.delegates ==> VotesOf(t.L())(a) == 0
  {
    hide WordsToken.Valid, S.Store.HoldersMatch, Sum;
    TokenLog(t);
  }
}
