/** The simple form the voting token refines: who owns which word, whom each
    account chose as delegate, and how many votes each account has thrown away
    by signing a delegation to the zero address.

    Balances and votes are counted here, never stored. */
module Ledgers {
  import opened Basics

  /** The words an account owns. */
  ghost function OwnedBy(owners: map<int, Address>, a: Address): set<int> {
    set id | id in owners && owners[id] == a
  }

  datatype Ledger = Ledger(
    owners: map<int, Address>,
    delegatee: map<Address, Address>,
    forfeited: map<Address, nat>)
  {
    ghost predicate Wf() {
      && (forall id :: id in owners ==> owners[id] != ZERO)
      && ZERO !in delegatee
      && ZERO !in forfeited
    }

    /** An account without a (non-zero) delegate represents itself. */
    function Rep(a: Address): Address {
      var current := At(delegatee, a, ZERO);
      if current == ZERO then a else current
    }

    ghost function Balance(a: Address): nat {
      |OwnedBy(owners, a)|
    }

    /** The words whose owner is represented by `a`. */
    ghost function Backing(a: Address): set<int> {
      set id | id in owners && Rep(owners[id]) == a
    }

    function Forfeited(a: Address): nat {
      At(forfeited, a, 0)
    }

    /** The votes `a` has: one for each word backing it, less what it forfeited. */
    ghost function Votes(a: Address): int {
      |Backing(a)| - Forfeited(a)
    }

    ghost function Supply(): nat {
      |owners|
    }

    /** The word goes to `to`; to the zero address means it is burned. */
    function Moved(id: int, to: Address): Ledger {
      this.(owners := if to == ZERO then owners - {id} else owners[id := to])
    }

    /** `d` chooses `e`. Choosing the zero address leaves `d` representing
        itself, while the votes it carried are given to nobody. */
    ghost function Delegated(d: Address, e: Address): Ledger {
      this.(delegatee := delegatee[d := e],
            forfeited := if e == ZERO && Balance(d) > 0 then forfeited[d := Forfeited(d) + Balance(d)]
                              else forfeited)
    }

    /** Votes are conserved: each account has exactly the votes of the words backing it. */
    ghost predicate Conserved() {
      forall a :: Forfeited(a) == 0
    }
  }

  const EMPTY := Ledger(map[], map[], map[])

  /** What moving `amount` votes from `src` to `dst` does to the votes of `a`. */
  function Shift(votes: int, a: Address, src: Address, dst: Address, amount: nat): int {
    if src == dst || amount == 0 then votes
    else if a == src then votes - amount
    else if a == dst then votes + amount
    else votes
  }

  /** The owner of a word, the zero address for a word that does not exist. */
  function OwnerOf(l: Ledger, id: int): Address {
    At(l.owners, id, ZERO)
  }

  /** Nobody represents the zero address, and it never has votes. */
  lemma ZeroHasNoVotes(l: Ledger)
    requires l.Wf()
    ensures l.Votes(ZERO) == 0 && l.Balance(ZERO) == 0
  {
    var backing, owned := l.Backing(ZERO), OwnedBy(l.owners, ZERO);
    if backing != {} { var id := PickFrom(backing); assert false; }
    if owned != {} { var id := PickFrom(owned); assert false; }
  }

  lemma MovedBacking(l: Ledger, id: int, to: Address, a: Address)
    requires l.Wf() && a != ZERO
    requires id in l.owners || to != ZERO
    ensures l.Moved(id, to).Wf()
    ensures l.Moved(id, to).Backing(a) ==
            (l.Backing(a) - {id}) + (if to != ZERO && l.Rep(to) == a then {id} else {})
    ensures id in l.Backing(a) <==> id in l.owners && l.Rep(l.owners[id]) == a
  {
    var l' := l.Moved(id, to);
    assert forall i :: i != id ==> (i in l'.owners <==> i in l.owners);
    assert forall i :: i != id && i in l.owners ==> l'.owners[i] == l.owners[i];
    assert forall x :: l'.Rep(x) == l.Rep(x);
  }

  /** Moving a word moves exactly one vote, from the representative of the old
      owner to the representative of the new one. Minting and burning are the
      cases in which one end is the zero address. */
  lemma MovedVotes(l: Ledger, id: int, to: Address, a: Address)
    requires l.Wf() && a != ZERO
    requires id in l.owners || to != ZERO
    ensures l.Moved(id, to).Wf()
    ensures l.Moved(id, to).Votes(a) == Shift(l.Votes(a), a, l.Rep(OwnerOf(l, id)), l.Rep(to), 1)
  {
    MovedBacking(l, id, to, a);
    SizeOfSwap(l.Backing(a), id, to != ZERO && l.Rep(to) == a);
  }

  lemma MovedAll(l: Ledger, id: int, to: Address)
    requires l.Wf() && (id in l.owners || to != ZERO)
    ensures l.Moved(id, to).Wf()
    ensures forall a :: a != ZERO ==>
            l.Moved(id, to).Votes(a) == Shift(l.Votes(a), a, l.Rep(OwnerOf(l, id)), l.Rep(to), 1)
  {
    MovedBacking(l, id, to, 1);
    forall a | a != ZERO
      ensures l.Moved(id, to).Votes(a) == Shift(l.Votes(a), a, l.Rep(OwnerOf(l, id)), l.Rep(to), 1)
    {
      MovedVotes(l, id, to, a);
    }
  }

  lemma MovedBalance(l: Ledger, id: int, to: Address, a: Address)
    requires l.Wf() && a != ZERO
    requires id in l.owners || to != ZERO
    ensures l.Moved(id, to).Balance(a) == l.Balance(a)
              - (if OwnerOf(l, id) == a then 1 else 0) + (if to == a then 1 else 0)
  {
    hide Ledger.Wf;
    var l' := l.Moved(id, to);
    assert OwnedBy(l'.owners, a) == (OwnedBy(l.owners, a) - {id}) + (if to == a then {id} else {});
    SizeOfSwap(OwnedBy(l.owners, a), id, to == a);
  }

  lemma MovedBalances(l: Ledger, id: int, to: Address)
    requires l.Wf() && (id in l.owners || to != ZERO)
    ensures OwnerOf(l, id) != ZERO ==> l.Balance(OwnerOf(l, id)) > 0
    ensures forall a :: a != ZERO ==>
              l.Moved(id, to).Balance(a)
                  == l.Balance(a) - (if OwnerOf(l, id) == a then 1 else 0) + (if to == a then 1 else 0)
  {
    if OwnerOf(l, id) != ZERO { assert id in OwnedBy(l.owners, OwnerOf(l, id)); }
    forall a | a != ZERO
      ensures l.Moved(id, to).Balance(a)
              == l.Balance(a) - (if OwnerOf(l, id) == a then 1 else 0) + (if to == a then 1 else 0)
    {
      MovedBalance(l, id, to, a);
    }
  }

  lemma SizeOfSwap(s: set<int>, x: int, put: bool)
    ensures |(s - {x}) + (if put then {x} else {})| == |s| - (if x in s then 1 else 0) + (if put then 1 else 0)
  {
    if put { assert |(s - {x}) + {x}| == |s - {x}| + 1; } else { assert (s - {x}) + {} == s - {x}; }
  }

  lemma DelegatedBacking(l: Ledger, d: Address, e: Address, a: Address)
    requires l.Wf() && d != ZERO
    ensures l.Delegated(d, e).Backing(a) ==
            (l.Backing(a) - OwnedBy(l.owners, d)) + (if l.Delegated(d, e).Rep(d) == a then OwnedBy(l.owners, d) else {})
    ensures l.Rep(d) == a ==> OwnedBy(l.owners, d) <= l.Backing(a)
    ensures l.Rep(d) != a ==> OwnedBy(l.owners, d) !! l.Backing(a)
  {
    assert forall x :: x != d ==> l.Delegated(d, e).Rep(x) == l.Rep(x);
  }

  lemma DelegatedForfeits(l: Ledger, d: Address, e: Address, a: Address)
    requires l.Wf() && d != ZERO
    ensures l.Delegated(d, e).Wf() && l.Delegated(d, e).Rep(d) == if e == ZERO then d else e
    ensures l.Delegated(d, e).Forfeited(a) == l.Forfeited(a) + if a == d && e == ZERO then l.Balance(d) else 0
  {
    hide Ledger.Balance;
  }

  /** Delegating moves the whole balance of the delegator, from its old
      representative to the account it names, the zero address included. */
  lemma DelegatedVotes(l: Ledger, d: Address, e: Address, a: Address)
    requires l.Wf() && a != ZERO && d != ZERO
    ensures l.Delegated(d, e).Wf()
    ensures l.Delegated(d, e).Votes(a) == Shift(l.Votes(a), a, l.Rep(d), e, l.Balance(d))
  {
    hide Ledger.Wf, Ledger.Delegated, Ledger.Rep, Ledger.Forfeited, Ledger.Backing;
    var own := OwnedBy(l.owners, d);
    DelegatedBacking(l, d, e, a);
    DelegatedForfeits(l, d, e, a);
    SizeOfSwaps(l.Backing(a), own, l.Delegated(d, e).Rep(d) == a);
  }

  lemma DelegatedAll(l: Ledger, d: Address, e: Address)
    requires l.Wf() && d != ZERO
    ensures l.Delegated(d, e).Wf()
    ensures forall a :: a != ZERO ==> l.Delegated(d, e).Votes(a) == Shift(l.Votes(a), a, l.Rep(d), e, l.Balance(d))
  {
    DelegatedVotes(l, d, e, 1);
    forall a | a != ZERO
      ensures l.Delegated(d, e).Votes(a) == Shift(l.Votes(a), a, l.Rep(d), e, l.Balance(d))
    {
      DelegatedVotes(l, d, e, a);
    }
  }

  lemma SizeOfSwaps(s: set<int>, t: set<int>, put: bool)
    requires t <= s || t !! s
    ensures |(s - t) + (if put then t else {})| == |s| - (if t <= s then |t| else 0) + (if put then |t| else 0)
  {
    if t <= s { assert s == (s - t) + t; } else { assert s - t == s; }
    if put { assert |(s - t) + t| == |s - t| + |t|; } else { assert (s - t) + {} == s - t; }
  }

  /** Conservation survives a delegation exactly when the delegatee is not the
      zero address or the delegator owns nothing. */
  lemma DelegationConserves(l: Ledger, d: Address, e: Address)
    requires l.Wf() && l.Conserved()
    ensures l.Delegated(d, e).Conserved() <==> (e != ZERO || l.Balance(d) == 0)
  {
    var l' := l.Delegated(d, e);
    if e == ZERO && l.Balance(d) > 0 {
      assert l'.Forfeited(d) != 0;
    } else {
      assert forall a :: l'.Forfeited(a) == l.Forfeited(a);
    }
  }

  /** A concrete loss: account 1 owns one word and signs a delegation to the zero
      address. It still represents itself, and has no vote any more. */
  lemma ForfeitExample()
    ensures var l := Ledger(map[0 := 1], map[], map[]); var l' := l.Delegated(1, ZERO);
      && l.Wf() && l.Conserved() && l.Votes(1) == 1
      && l'.Balance(1) == 1 && l'.Rep(1) == 1 && l'.Votes(1) == 0 && !l'.Conserved()
  {
    var l := Ledger(map[0 := 1], map[], map[]);
    var l' := l.Delegated(1, ZERO);
    assert OwnedBy(l.owners, 1) == {0} && l.Backing(1) == {0} && l'.Backing(1) == {0};
    assert l'.Forfeited(1) == 1;
  }

  // ---------------------------------------------------------------- totals

  ghost function BackingOf(l: Ledger): Address -> int {
    (a: Address) => |l.Backing(a)|
  }

  ghost function VotesOf(l: Ledger): Address -> int {
    (a: Address) => l.Votes(a)
  }

  ghost function ForfeitedOf(l: Ledger): Address -> int {
    (a: Address) => l.Forfeited(a)
  }

  /** The words backing any account of `s`. */
  ghost function BackingAny(l: Ledger, s: set<Address>): set<int> {
    set id | id in l.owners && l.Rep(l.owners[id]) in s
  }

  lemma BackingAnyTake(l: Ledger, s: set<Address>, x: Address)
    requires x in s
    ensures |BackingAny(l, s)| == |l.Backing(x)| + |BackingAny(l, s - {x})|
  {
    assert BackingAny(l, s) == l.Backing(x) + BackingAny(l, s - {x});
    assert l.Backing(x) !! BackingAny(l, s - {x});
  }

  lemma {:induction false} BackingsAddUp(l: Ledger, s: set<Address>)
    ensures Sum(s, BackingOf(l)) == |BackingAny(l, s)|
    decreases s
  {
    if s == {} {
      assert BackingAny(l, s) == {};
    } else {
      var x := PickFrom(s);
      SumTake(s, BackingOf(l), x);
      BackingsAddUp(l, s - {x});
      BackingAnyTake(l, s, x);
    }
  }

  /** No set of accounts ever holds more votes than there are words, whatever
      was delegated or forfeited. */
  lemma VotesAtMostSupply(l: Ledger, s: set<Address>)
    ensures Sum(s, VotesOf(l)) <= l.Supply()
  {
    SumAtMost(s, VotesOf(l), BackingOf(l));
    BackingsAddUp(l, s);
    assert BackingAny(l, s) <= l.owners.Keys;
    SubsetSize(BackingAny(l, s), l.owners.Keys);
  }

  /** All votes and all forfeited votes together make up the supply, over any
      set of accounts that includes every representative in use. */
  lemma VotesAndForfeitsMakeSupply(l: Ledger, s: set<Address>)
    requires forall id :: id in l.owners ==> l.Rep(l.owners[id]) in s
    ensures Sum(s, VotesOf(l)) + Sum(s, ForfeitedOf(l)) == l.Supply()
  {
    hide Sum;
    SumPlus(s, VotesOf(l), ForfeitedOf(l), BackingOf(l));
    BackingsAddUp(l, s);
    assert BackingAny(l, s) == l.owners.Keys by {
      assert forall id :: id in l.owners ==> id in BackingAny(l, s);
    }
  }

  /** A balance is part of what backs its representative, and no part of what
      backs anyone else. */
  lemma BalanceWithin(l: Ledger, d: Address, a: Address)
    ensures l.Balance(d) <= |l.Backing(l.Rep(d))|
    ensures l.Rep(d) != a ==> |l.Backing(a)| + l.Balance(d) <= l.Supply()
  {
    var own := OwnedBy(l.owners, d);
    SubsetSize(own, l.Backing(l.Rep(d)));
    if l.Rep(d) != a {
      assert own !! l.Backing(a);
      SubsetSize(own + l.Backing(a), l.owners.Keys);
    }
  }

  lemma BackingWithin(l: Ledger, a: Address)
    ensures |l.Backing(a)| <= l.Supply()
  {
    SubsetSize(l.Backing(a), l.owners.Keys);
  }

  lemma {:induction false} SubsetSize<T>(a: set<T>, b: set<T>)
    requires a <= b
    ensures |a| <= |b|
  {
    assert b == a + (b - a);
  }
}
