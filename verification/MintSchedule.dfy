/** Which word ids a mint creates: every tenth id up to 1820 is a reward. */
module MintSchedule {
  const LAST_REWARD: nat := 1820

  predicate IsReward(id: int) {
    0 <= id <= LAST_REWARD && id % 10 == 0
  }

  /** The id put up for auction by a mint that finds the counter at `c`: a reward id is passed over. */
  function AuctionedAt(c: nat): nat {
    if IsReward(c) then c + 1 else c
  }

  /** The word id counter after `n` mints. */
  function NextId(n: nat): nat {
    if n == 0 then 0 else AuctionedAt(NextId(n - 1)) + 1
  }

  /** The id that mint number `n` puts up for auction. */
  function AuctionedId(n: nat): nat {
    AuctionedAt(NextId(n))
  }

  /** The counter has a closed form: one id for each mint and one for each reward given. */
  lemma {:induction false} NextIdClosed(n: nat)
    ensures NextId(n) == n + (if (n + 8) / 9 <= 183 then (n + 8) / 9 else 183)
  {
    if n > 0 {
      NextIdClosed(n - 1);
    }
  }

  /** Ids are minted once: the counter strictly increases. */
  lemma {:induction false} NextIdIncreasing(m: nat, n: nat)
    requires m < n
    ensures NextId(m) <= AuctionedId(m) < NextId(n)
  {
    if m < n - 1 {
      NextIdIncreasing(m, n - 1);
    }
  }

  /** Every id below the counter was minted by some mint, for auction if and
      only if it is not a multiple of ten up to 1820. */
  lemma {:induction false} MintOf(n: nat, id: nat) returns (m: nat)
    requires id < NextId(n)
    ensures m < n && NextId(m) <= id < NextId(m + 1)
    ensures id == AuctionedId(m) <==> !(id <= 1820 && id % 10 == 0)
  {
    if id < NextId(n - 1) {
      m := MintOf(n - 1, id);
    } else {
      m := n - 1;
    }
  }

  /** No id is ever minted twice. */
  lemma MintOnce(m: nat, k: nat, id: nat)
    requires NextId(m) <= id < NextId(m + 1)
    requires NextId(k) <= id < NextId(k + 1)
    ensures m == k
  {
    if m + 1 < k { NextIdIncreasing(m + 1, k); }
    if k + 1 < m { NextIdIncreasing(k + 1, m); }
  }
}
