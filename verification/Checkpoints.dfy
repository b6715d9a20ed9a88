/** One account's vote checkpoints as a sequence, and what writing and looking
    up a checkpoint mean on it. */
module Checkpoints {
  import opened Basics
  import opened Ledgers

  const MAX_UINT32: nat := 0xFFFF_FFFF
  const MAX_UINT96: nat := 0xFFFF_FFFF_FFFF_FFFF_FFFF_FFFF

  datatype Checkpoint = Checkpoint(fromBlock: nat, votes: nat)

  /** The checkpoints of `a` in the two storage mappings. */
  function Trail(checkpoints: map<(Address, nat), Checkpoint>, numCheckpoints: map<Address, nat>, a: Address)
    : (t: seq<Checkpoint>)
  {
    seq(At(numCheckpoints, a, 0), (i: nat) => At(checkpoints, (a, i), Checkpoint(0, 0)))
  }

  function Latest(t: seq<Checkpoint>): nat {
    if t == [] then 0 else t[|t| - 1].votes
  }

  /** The votes as of the end of block `b`: those of the last checkpoint made no later than `b`. */
  function Lookup(t: seq<Checkpoint>, b: nat): nat {
    if t == [] then 0
    else if t[|t| - 1].fromBlock <= b then t[|t| - 1].votes
    else Lookup(t[..|t| - 1], b)
  }

  /** A second write in the same block replaces the first. */
  function Written(t: seq<Checkpoint>, block: nat, votes: nat): seq<Checkpoint> {
    if t != [] && t[|t| - 1].fromBlock == block then t[|t| - 1 := Checkpoint(block, votes)]
    else t + [Checkpoint(block, votes)]
  }

  ghost predicate Increasing(t: seq<Checkpoint>) {
    forall i, j :: 0 <= i < j < |t| ==> t[i].fromBlock < t[j].fromBlock
  }

  /** The trail of `a` replays the whole history of the ledger: it gives the
      votes `a` had at the end of every block before `block`, and its last
      entry gives those `a` has in the ledger `l` of the current one. */
  ghost predicate Replays(t: seq<Checkpoint>, a: Address, block: nat, l: Ledger, history: seq<Ledger>) {
    && Increasing(t)
    && (t != [] ==> t[|t| - 1].fromBlock <= block)
    && (forall i :: 0 <= i < |t| ==> t[i].votes <= MAX_UINT96)
    && Latest(t) == l.Votes(a)
    && (forall b :: 0 <= b < |history| && b < block ==> Lookup(t, b) == history[b].Votes(a))
  }

  /** Where bisection may stop: the neighbours of a slot bracket the block. */
  lemma {:induction false} LookupBracket(t: seq<Checkpoint>, b: nat, k: nat)
    requires Increasing(t)
    requires k < |t| && t[k].fromBlock <= b
    requires k + 1 < |t| ==> b < t[k + 1].fromBlock
    ensures Lookup(t, b) == t[k].votes
  {
    if k + 1 < |t| {
      assert t[k + 1].fromBlock <= t[|t| - 1].fromBlock;
      LookupBracket(t[..|t| - 1], b, k);
    }
  }

  lemma {:induction false} LookupBefore(t: seq<Checkpoint>, b: nat)
    requires Increasing(t)
    requires t != [] ==> b < t[0].fromBlock
    ensures Lookup(t, b) == 0
  {
    if |t| > 1 {
      LookupBefore(t[..|t| - 1], b);
    }
  }

  /** Writing keeps the order and every earlier answer, and sets the current votes. */
  lemma WrittenLookup(t: seq<Checkpoint>, block: nat, votes: nat)
    requires Increasing(t)
    requires t != [] ==> t[|t| - 1].fromBlock <= block
    ensures var t' := Written(t, block, votes);
      && Increasing(t') && t' != [] && t'[|t'| - 1].fromBlock == block && Latest(t') == votes
      && (forall b | 0 <= b < block :: Lookup(t', b) == Lookup(t, b))
      && (forall i | 0 <= i < |t'| :: t'[i].votes == votes || (i < |t| && t'[i] == t[i]))
  {
    var t' := Written(t, block, votes);
    forall b: nat | b < block ensures Lookup(t', b) == Lookup(t, b) {
      assert t'[..|t'| - 1] == if t != [] && t[|t| - 1].fromBlock == block then t[..|t| - 1] else t;
    }
  }

  /** The trail of `a` after `amount` votes moved from `src` to `dst` in `block`. */
  function MovedTrail(t: seq<Checkpoint>, a: Address, src: Address, dst: Address, amount: nat, block: nat)
    : seq<Checkpoint>
    requires a == src && src != dst && a != ZERO ==> amount <= Latest(t)
  {
    if src == dst || amount == 0 || a == ZERO then t
    else if a == src then Written(t, block, Latest(t) - amount)
    else if a == dst then Written(t, block, Latest(t) + amount)
    else t
  }

  /** A checkpoint can be written while the block number fits 32 bits and the
      checkpoint counter does not overflow. */
  function WriteOutcome(t: seq<Checkpoint>, block: nat): Outcome {
    if block > MAX_UINT32 then Reverted
    else if t != [] && t[|t| - 1].fromBlock == block then Success
    else if |t| >= MAX_UINT32 then Panicked
    else Success
  }

  /** How moving votes ends, given the trails of both ends: it fails when the
      source has too few votes, or a checkpoint cannot hold the result. */
  function MoveOutcome(ts: seq<Checkpoint>, td: seq<Checkpoint>, src: Address, dst: Address, amount: nat, block: nat)
    : Outcome
  {
    if src == dst || amount == 0 then Success
    else if src != ZERO && Latest(ts) < amount then Reverted
    else if src != ZERO && !WriteOutcome(ts, block).Success? then WriteOutcome(ts, block)
    else if dst != ZERO && Latest(td) + amount > MAX_UINT96 then Panicked
    else if dst != ZERO then WriteOutcome(td, block)
    else Success
  }

  /** If the ledger moves the same votes, the trail replays the new ledger. */
  lemma MovedTrailReplays(
    t: seq<Checkpoint>, a: Address, src: Address, dst: Address, amount: nat, block: nat,
    l: Ledger, l': Ledger, history: seq<Ledger>)
    requires a != ZERO && Replays(t, a, block, l, history)
    requires a == src && src != dst ==> amount <= Latest(t)
    requires a == dst && src != dst ==> Latest(t) + amount <= MAX_UINT96
    requires l'.Votes(a) == Shift(l.Votes(a), a, src, dst, amount)
    ensures Replays(MovedTrail(t, a, src, dst, amount, block), a, block, l', history)
  {
    if src != dst && amount != 0 && (a == src || a == dst) {
      var v := if a == src then Latest(t) - amount else Latest(t) + amount;
      WrittenLookup(t, block, v);
      if a == src { assert Latest(t) <= MAX_UINT96; }
    }
  }

  /** Closing a block turns the current ledger into history. */
  lemma NextBlockReplays(t: seq<Checkpoint>, a: Address, block: nat, l: Ledger, history: seq<Ledger>)
    requires Replays(t, a, block, l, history) && |history| == block
    ensures Replays(t, a, block + 1, l, history + [l])
  {
    forall b | 0 <= b < block + 1 ensures Lookup(t, b) == (history + [l])[b].Votes(a) {
      if b == block { assert Lookup(t, b) == Latest(t); }
    }
  }
}
