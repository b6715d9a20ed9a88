/** The enumerable extension: swap-and-pop lists over two slot mappings, an
    array and two index mappings. */
module ERC721Enumerables {
  import opened Basics
  import opened Ledgers
  import opened Enumeration

  class ERC721Enumerable {
    var ownedTokens: Slots
    var ownedTokensIndex: Index
    var allTokens: seq<int>
    var allTokensIndex: Index

    /** Both lists describe the given ownership. */
    ghost predicate Describes(owners: map<int, Address>)
      reads this
    {
      && ListsOwners(ownedTokens, ownedTokensIndex, owners)
      && ListsAll(allTokens, allTokensIndex, owners.Keys)
    }

    constructor ()
      ensures Describes(map[])
    {
      ownedTokens, ownedTokensIndex, allTokens, allTokensIndex := map[], map[], [], map[];
      new;
      forall a ensures OwnedBy(map[], a) == {} {}
    }

    /** A revert puts the storage back. */
    method Restore(owned: Slots, ownedIndex: Index, all: seq<int>, allIndex: Index)
      modifies this
      ensures ownedTokens == owned && ownedTokensIndex == ownedIndex
      ensures allTokens == all && allTokensIndex == allIndex
    {
      ownedTokens, ownedTokensIndex := owned, ownedIndex;
      allTokens, allTokensIndex := all, allIndex;
    }

    method TokenOfOwnerByIndex(owner: Address, index: nat, balance: nat, ghost owners: map<int, Address>)
      returns (r: Outcome, id: int)
      requires Describes(owners) && (owner != ZERO ==> balance == |OwnedBy(owners, owner)|)
      ensures r == if owner != ZERO && index < balance then Success else Reverted
      ensures r.Success? ==> id in owners && owners[id] == owner && At(ownedTokensIndex, id, 0) == index
    {
      if owner == ZERO { return Reverted, 0; }
      if index >= balance { return Reverted, 0; }
      assert Lists(ownedTokens, ownedTokensIndex, owner, OwnedBy(owners, owner));
      return Success, At(ownedTokens, (owner, index), 0);
    }

    method TotalSupply(ghost owners: map<int, Address>) returns (n: nat)
      requires Describes(owners)
      ensures n == |owners|
    {
      n := |allTokens|;
    }

    method TokenByIndex(index: nat, ghost owners: map<int, Address>) returns (r: Outcome, id: int)
      requires Describes(owners)
      ensures r == if index < |owners| then Success else Reverted
      ensures r.Success? ==> id in owners && At(allTokensIndex, id, 0) == index
    {
      if index >= |allTokens| { return Reverted, 0; }
      return Success, allTokens[index];
    }

    method AddTokenToOwnerEnumeration(to: Address, tokenId: int, length: nat)
      modifies `ownedTokens, `ownedTokensIndex
      ensures ownedTokens == old(ownedTokens)[(to, length) := tokenId]
      ensures ownedTokensIndex == old(ownedTokensIndex)[tokenId := length]
    {
      ownedTokens := ownedTokens[(to, length) := tokenId];
      ownedTokensIndex := ownedTokensIndex[tokenId := length];
    }

    method AddTokenToAllTokensEnumeration(tokenId: int)
      modifies `allTokens, `allTokensIndex
      ensures allTokens == old(allTokens) + [tokenId]
      ensures allTokensIndex == old(allTokensIndex)[tokenId := |old(allTokens)|]
    {
      allTokensIndex := allTokensIndex[tokenId := |allTokens|];
      allTokens := allTokens + [tokenId];
    }

    method RemoveTokenFromOwnerEnumeration(from: Address, tokenId: int, balance: nat)
      requires balance > 0
      modifies `ownedTokens, `ownedTokensIndex
      ensures ownedTokens == PoppedSlots(old(ownedTokens), old(ownedTokensIndex), from, tokenId, balance - 1)
      ensures ownedTokensIndex == PoppedIndex(old(ownedTokens), old(ownedTokensIndex), from, tokenId, balance - 1)
    {
      var lastTokenIndex := balance - 1;
      var tokenIndex := At(ownedTokensIndex, tokenId, 0);
      if tokenIndex != lastTokenIndex {
        var lastTokenId := At(ownedTokens, (from, lastTokenIndex), 0);
        ownedTokens := ownedTokens[(from, tokenIndex) := lastTokenId];
        ownedTokensIndex := ownedTokensIndex[lastTokenId := tokenIndex];
      }
      ownedTokensIndex := ownedTokensIndex - {tokenId};
      ownedTokens := ownedTokens - {(from, lastTokenIndex)};
    }

    method RemoveTokenFromAllTokensEnumeration(tokenId: int)
      requires |allTokens| > 0 && At(allTokensIndex, tokenId, 0) < |allTokens|
      modifies `allTokens, `allTokensIndex
      ensures allTokens == PoppedAll(old(allTokens), old(allTokensIndex), tokenId)
      ensures allTokensIndex == PoppedAllIndex(old(allTokens), old(allTokensIndex), tokenId)
    {
      var lastTokenIndex := |allTokens| - 1;
      var tokenIndex := At(allTokensIndex, tokenId, 0);
      var lastTokenId := allTokens[lastTokenIndex];
      allTokens := allTokens[tokenIndex := lastTokenId];
      allTokensIndex := allTokensIndex[lastTokenId := tokenIndex];
      allTokensIndex := allTokensIndex - {tokenId};
      allTokens := allTokens[..lastTokenIndex];
    }

    /** The hook runs before owners and balances are written: it is given the
        balances of the ledger before the move. */
    method BeforeTokenTransfer(from: Address, to: Address, tokenId: int, balances: map<Address, nat>)
      requires from != ZERO || to != ZERO
      requires from != ZERO ==>
               At(balances, from, 0) > 0 && |allTokens| > 0 && At(allTokensIndex, tokenId, 0) < |allTokens|
      modifies this
      ensures (ownedTokens, ownedTokensIndex) ==
              HookedOwned(old(ownedTokens), old(ownedTokensIndex), from, to, tokenId,
                          At(balances, from, 0), At(balances, to, 0))
      ensures (allTokens, allTokensIndex) == HookedAll(old(allTokens), old(allTokensIndex), from, to, tokenId)
    {
      if from == ZERO {
        AddTokenToAllTokensEnumeration(tokenId);
      } else if from != to {
        RemoveTokenFromOwnerEnumeration(from, tokenId, At(balances, from, 0));
      }
      if to == ZERO {
        RemoveTokenFromAllTokensEnumeration(tokenId);
      } else if to != from {
        AddTokenToOwnerEnumeration(to, tokenId, At(balances, to, 0));
      }
    }
  }

  /** After the hook both lists describe the ledger after the move, although
      owners and balances still are those before it. */
  lemma HookedDescribes(owned: Slots, index: Index, all: seq<int>, allIndex: Index, l: Ledger, id: int, to: Address)
    requires l.Wf() && (id in l.owners || to != ZERO)
    requires ListsOwners(owned, index, l.owners) && ListsAll(all, allIndex, l.owners.Keys)
    ensures var from := OwnerOf(l, id); var l' := l.Moved(id, to);
      && (from != ZERO ==> l.Balance(from) > 0 && |all| > 0 && At(allIndex, id, 0) < |all|)
      && var (owned', index') := HookedOwned(owned, index, from, to, id, l.Balance(from), l.Balance(to));
         var (all', allIndex') := HookedAll(all, allIndex, from, to, id);
         ListsOwners(owned', index', l'.owners) && ListsAll(all', allIndex', l'.owners.Keys)
  {
    HookedOwnedLists(owned, index, l, id, to);
    HookedAllLists(all, allIndex, l, id, to);
  }
}
