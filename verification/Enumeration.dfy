/** The two swap-and-pop indexes of the enumerable token, as relations between
    the index mappings and the set of words they list. */
module Enumeration {
  import opened Basics
  import opened Ledgers

  type Slots = map<(Address, nat), int>
  type Index = map<int, nat>

  /** Slots 0..n-1 of `a` list exactly the words of `s`, each once, and the
      index maps each of them back to its slot. */
  ghost predicate Lists(owned: Slots, index: Index, a: Address, s: set<int>) {
    && (forall i: nat :: i < |s| ==> At(owned, (a, i), 0) in s && At(index, At(owned, (a, i), 0), 0) == i)
    && (forall t :: t in s ==> At(index, t, 0) < |s| && At(owned, (a, At(index, t, 0)), 0) == t)
  }

  /** Every account's slots list what it owns. */
  ghost predicate ListsOwners(owned: Slots, index: Index, owners: map<int, Address>) {
    forall a :: a != ZERO ==> Lists(owned, index, a, OwnedBy(owners, a))
  }

  /** The global array lists exactly the words of `s`, each once, with its inverse. */
  ghost predicate ListsAll(all: seq<int>, index: Index, s: set<int>) {
    && |all| == |s|
    && (forall i :: 0 <= i < |all| ==> all[i] in s && At(index, all[i], 0) == i)
    && (forall t :: t in s ==> At(index, t, 0) < |all| && all[At(index, t, 0)] == t)
  }

  // ------------------------------------------------------------- one account

  /** The slots after swap-and-pop of `id`. */
  function PoppedSlots(owned: Slots, index: Index, a: Address, id: int, last: nat): Slots {
    var i := At(index, id, 0);
    (if i != last then owned[(a, i) := At(owned, (a, last), 0)] else owned) - {(a, last)}
  }

  function PoppedIndex(owned: Slots, index: Index, a: Address, id: int, last: nat): Index {
    var i := At(index, id, 0);
    (if i != last then index[At(owned, (a, last), 0) := i] else index) - {id}
  }

  lemma PopLists(owned: Slots, index: Index, a: Address, s: set<int>, id: int)
    requires Lists(owned, index, a, s) && id in s
    ensures |s| > 0
    ensures Lists(PoppedSlots(owned, index, a, id, |s| - 1), PoppedIndex(owned, index, a, id, |s| - 1), a, s - {id})
  {
    var last := |s| - 1;
    var owned', index' := PoppedSlots(owned, index, a, id, last), PoppedIndex(owned, index, a, id, last);
    assert |s - {id}| == last;
    var moved := At(owned, (a, last), 0);
    forall i: nat | i < last
      ensures At(owned', (a, i), 0) in s - {id} && At(index', At(owned', (a, i), 0), 0) == i
    {
      if i == At(index, id, 0) { assert moved != id; }
    }
  }

  /** Popping a word of one account leaves the lists of the others alone. */
  lemma PopKeeps(owned: Slots, index: Index, a: Address, s: set<int>, id: int, b: Address, u: set<int>)
    requires Lists(owned, index, a, s) && id in s
    requires Lists(owned, index, b, u) && b != a && u !! s
    ensures |s| > 0
    ensures Lists(PoppedSlots(owned, index, a, id, |s| - 1), PoppedIndex(owned, index, a, id, |s| - 1), b, u)
  {
    assert At(owned, (a, |s| - 1 as nat), 0) in s;
  }

  lemma PushLists(owned: Slots, index: Index, a: Address, s: set<int>, id: int)
    requires Lists(owned, index, a, s) && id !in s
    ensures Lists(owned[(a, |s|) := id], index[id := |s|], a, s + {id})
  {
    assert |s + {id}| == |s| + 1;
  }

  // ------------------------------------------------------------ every account

  lemma PopListsOwners(owned: Slots, index: Index, owners: map<int, Address>, id: int)
    requires ListsOwners(owned, index, owners)
    requires id in owners && owners[id] != ZERO
    ensures var a := owners[id]; var n := |OwnedBy(owners, a)|;
      && n > 0
      && ListsOwners(PoppedSlots(owned, index, a, id, n - 1), PoppedIndex(owned, index, a, id, n - 1), owners - {id})
  {
    var a := owners[id];
    var s := OwnedBy(owners, a);
    PopLists(owned, index, a, s, id);
    assert OwnedBy(owners - {id}, a) == s - {id};
    forall b | b != ZERO && b != a
      ensures Lists(PoppedSlots(owned, index, a, id, |s| - 1), PoppedIndex(owned, index, a, id, |s| - 1),
                    b, OwnedBy(owners - {id}, b))
    {
      assert OwnedBy(owners - {id}, b) == OwnedBy(owners, b);
      PopKeeps(owned, index, a, s, id, b, OwnedBy(owners, b));
    }
  }

  lemma PushListsOwners(owned: Slots, index: Index, owners: map<int, Address>, id: int, a: Address)
    requires ListsOwners(owned, index, owners)
    requires id !in owners && a != ZERO
    ensures ListsOwners(owned[(a, |OwnedBy(owners, a)|) := id], index[id := |OwnedBy(owners, a)|], owners[id := a])
  {
    var s := OwnedBy(owners, a);
    var owned', index', owners' := owned[(a, |s|) := id], index[id := |s|], owners[id := a];
    PushLists(owned, index, a, s, id);
    assert OwnedBy(owners', a) == s + {id};
    forall b | b != ZERO && b != a ensures Lists(owned', index', b, OwnedBy(owners', b)) {
      var u := OwnedBy(owners, b);
      assert Lists(owned, index, b, u);
      assert OwnedBy(owners', b) == u;
    }
  }

  // ---------------------------------------------------------- the global array

  /** The global array swaps even when the removed word is the last one. */
  function PoppedAll(all: seq<int>, index: Index, id: int): seq<int>
    requires |all| > 0 && At(index, id, 0) < |all|
  {
    all[At(index, id, 0) := all[|all| - 1]][..|all| - 1]
  }

  function PoppedAllIndex(all: seq<int>, index: Index, id: int): Index
    requires |all| > 0
  {
    index[all[|all| - 1] := At(index, id, 0)] - {id}
  }

  lemma PopListsAll(all: seq<int>, index: Index, s: set<int>, id: int)
    requires ListsAll(all, index, s) && id in s
    ensures |all| > 0 && At(index, id, 0) < |all|
    ensures ListsAll(PoppedAll(all, index, id), PoppedAllIndex(all, index, id), s - {id})
  {
    var all', index' := PoppedAll(all, index, id), PoppedAllIndex(all, index, id);
    var last := all[|all| - 1];
    forall i | 0 <= i < |all'| ensures all'[i] in s - {id} && At(index', all'[i], 0) == i {
      if i == At(index, id, 0) { assert last != id; }
    }
  }

  lemma PushListsAll(all: seq<int>, index: Index, s: set<int>, id: int)
    requires ListsAll(all, index, s) && id !in s
    ensures ListsAll(all + [id], index[id := |all|], s + {id})
  {
  }

  // ------------------------------------------------------------------ a move

  /** The owner lists after the hook for a move, given the two balances before it. */
  function HookedOwned(owned: Slots, index: Index, from: Address, to: Address, id: int, nFrom: nat, nTo: nat)
    : (Slots, Index)
    requires from != ZERO && from != to ==> nFrom > 0
  {
    var popped := if from == ZERO || from == to then (owned, index)
                  else (PoppedSlots(owned, index, from, id, nFrom - 1), PoppedIndex(owned, index, from, id, nFrom - 1));
    if to == ZERO || from == to then popped else (popped.0[(to, nTo) := id], popped.1[id := nTo])
  }

  lemma MovedOwners(l: Ledger, id: int, to: Address)
    ensures var l' := l.Moved(id, to); var rest := l.owners - {id};
      && (to == ZERO ==> l'.owners == rest && l'.owners.Keys == l.owners.Keys - {id})
      && (to != ZERO ==> l'.owners == rest[id := to] && l'.owners.Keys == l.owners.Keys + {id})
      && (to != ZERO && OwnerOf(l, id) == to ==> l'.owners == l.owners)
      && (id !in l.owners ==> rest == l.owners)
      && (id in l.owners ==> l.owners.Keys + {id} == l.owners.Keys)
  {
  }

  lemma HookedOwnedLists(owned: Slots, index: Index, l: Ledger, id: int, to: Address)
    requires l.Wf() && ListsOwners(owned, index, l.owners) && (id in l.owners || to != ZERO)
    ensures var from := OwnerOf(l, id);
      && (from != ZERO ==> l.Balance(from) > 0)
      && var (owned', index') := HookedOwned(owned, index, from, to, id, l.Balance(from), l.Balance(to));
         ListsOwners(owned', index', l.Moved(id, to).owners)
  {
    var from := OwnerOf(l, id);
    var rest := l.owners - {id};
    MovedOwners(l, id, to);
    assert from != ZERO <==> id in l.owners;
    if from != ZERO {
      PopListsOwners(owned, index, l.owners, id);
    }
    if to != ZERO && from != to {
      assert OwnedBy(rest, to) == OwnedBy(l.owners, to);
      var n := l.Balance(from);
      if from == ZERO {
        PushListsOwners(owned, index, rest, id, to);
      } else {
        PushListsOwners(PoppedSlots(owned, index, from, id, n - 1), PoppedIndex(owned, index, from, id, n - 1),
                        rest, id, to);
      }
    }
  }

  /** The global array after the hook for a move. */
  function HookedAll(all: seq<int>, index: Index, from: Address, to: Address, id: int): (seq<int>, Index)
    requires from != ZERO && to == ZERO ==> |all| > 0 && At(index, id, 0) < |all|
  {
    if from == ZERO && to == ZERO then (all, index)
    else if from == ZERO then (all + [id], index[id := |all|])
    else if to == ZERO then (PoppedAll(all, index, id), PoppedAllIndex(all, index, id))
    else (all, index)
  }

  lemma HookedAllLists(all: seq<int>, index: Index, l: Ledger, id: int, to: Address)
    requires l.Wf() && ListsAll(all, index, l.owners.Keys) && (id in l.owners || to != ZERO)
    ensures var from := OwnerOf(l, id);
      && (from != ZERO ==> |all| > 0 && At(index, id, 0) < |all|)
      && var (all', index') := HookedAll(all, index, from, to, id);
         ListsAll(all', index', l.Moved(id, to).owners.Keys)
  {
    MovedOwners(l, id, to);
    assert OwnerOf(l, id) != ZERO <==> id in l.owners;
    if id in l.owners {
      PopListsAll(all, index, l.owners.Keys, id);
    } else {
      PushListsAll(all, index, l.owners.Keys, id);
    }
  }
}
