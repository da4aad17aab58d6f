/** The halving block reward of pallets/reward/src/lib.rs and what it can ever mint. */
module Reward {
  import opened Basics
  import opened Powers

  /** The reward at height `n`, in closed form. */
  function RewardAt(initial: nat, interval: nat, n: nat): nat
    requires interval > 0
  {
    DivMonotone(0, n, interval);
    ScaleDown(initial, n / interval)
  }

  method BlockReward(initial: nat, interval: nat, n: nat) returns (reward: nat)
    requires interval > 0
    ensures reward == RewardAt(initial, interval, n)
  {
    DivMonotone(0, n, interval);
    var halvings: nat := n / interval;
    reward := initial;
    assert Pow2(0) == 1;
    while halvings != 0 && reward != 0
      invariant 0 <= halvings <= n / interval
      invariant reward == initial / Pow2(n / interval - halvings)
    {
      var done := n / interval - halvings;
      DivDiv(initial, Pow2(done), 2);
      assert Pow2(done + 1) == Pow2(done) * 2;
      reward := reward / 2;
      halvings := halvings - 1;
    }
    if halvings != 0 {
      var done := n / interval - halvings;
      Pow2Add(done, halvings);
      DivDiv(initial, Pow2(done), Pow2(halvings));
      DivUnique(0, Pow2(halvings), 0, 0);
    }
  }

  // ---- The cap --------------------------------------------------------------------------

  /** The sum of the rewards at the heights from `lo` below `hi`. */
  function Sum(initial: nat, interval: nat, lo: nat, hi: nat): nat
    requires interval > 0 && lo <= hi
    decreases hi
  {
    if lo == hi then 0 else Sum(initial, interval, lo, hi - 1) + RewardAt(initial, interval, hi - 1)
  }

  function OneBits(x: nat): (ones: nat)
    ensures ones <= x
  {
    if x == 0 then 0 else x % 2 + OneBits(x / 2)
  }

  /** One interval later the reward is that of half the initial reward. */
  lemma RewardShift(initial: nat, interval: nat, n: nat)
    requires interval > 0
    ensures RewardAt(initial, interval, n + interval) == RewardAt(initial / 2, interval, n)
  {
    DivMonotone(0, n, interval);
    assert n + interval == (n / interval + 1) * interval + n % interval;
    DivUnique(n + interval, interval, n / interval + 1, n % interval);
    DivDiv(initial, 2, Pow2(n / interval));
  }

  lemma {:induction false} SumShift(initial: nat, interval: nat, hi: nat)
    requires interval > 0
    ensures Sum(initial, interval, interval, hi + interval) == Sum(initial / 2, interval, 0, hi)
  {
    if hi > 0 {
      SumShift(initial, interval, hi - 1);
      RewardShift(initial, interval, hi - 1);
    }
  }

  lemma {:induction false} SumSplit(initial: nat, interval: nat, lo: nat, mid: nat, hi: nat)
    requires interval > 0 && lo <= mid <= hi
    ensures Sum(initial, interval, lo, hi) == Sum(initial, interval, lo, mid) + Sum(initial, interval, mid, hi)
    decreases hi
  {
    if mid < hi {
      SumSplit(initial, interval, lo, mid, hi - 1);
    }
  }

  lemma {:induction false} FirstInterval(initial: nat, interval: nat, hi: nat)
    requires interval > 0 && hi <= interval
    ensures Sum(initial, interval, 0, hi) == hi * initial
  {
    if hi > 0 {
      FirstInterval(initial, interval, hi - 1);
      DivUnique(hi - 1, interval, 0, hi - 1);
      assert Pow2(0) == 1;
      assert (hi - 1) * initial + initial == hi * initial;
    }
  }

  /** The initial reward and all its halvings, down to zero. */
  function Halvings(initial: nat): nat {
    if initial == 0 then 0 else initial + Halvings(initial / 2)
  }

  /** Each halving of an odd reward drops a half, so the halvings fall short of twice the
      initial reward by one unit per set bit. */
  lemma {:induction false} HalvingsClosed(initial: nat)
    ensures Halvings(initial) == 2 * initial - OneBits(initial)
  {
    if initial > 0 {
      HalvingsClosed(initial / 2);
    }
  }

  function Cap(initial: nat, interval: nat): nat {
    MulNat(interval, Halvings(initial))
  }

  lemma CapStep(initial: nat, interval: nat)
    requires initial > 0
    ensures Cap(initial, interval) == interval * initial + Cap(initial / 2, interval)
  {
    MulAdd(interval, initial, Halvings(initial / 2), Halvings(initial));
  }

  lemma BitsStep(initial: nat, interval: nat)
    requires initial > 0
    ensures interval * Bits(initial) == interval + interval * Bits(initial / 2)
    ensures interval * Bits(initial) >= interval
  {
    MulAdd(interval, 1, Bits(initial / 2), Bits(initial));
    MulMonotone(0, Bits(initial / 2), interval);
  }

  lemma {:induction false} SumBound(initial: nat, interval: nat, hi: nat)
    requires interval > 0
    ensures Sum(initial, interval, 0, hi) <= Cap(initial, interval)
    ensures hi >= interval * Bits(initial) ==> Sum(initial, interval, 0, hi) == Cap(initial, interval)
    decreases initial, hi
  {
    if initial == 0 {
      SumOfNothing(interval, hi);
    } else {
      CapStep(initial, interval);
      BitsStep(initial, interval);
      if hi < interval {
        FirstInterval(initial, interval, hi);
        MulMonotone(hi, interval, initial);
      } else {
        SumSplit(initial, interval, 0, interval, hi);
        FirstInterval(initial, interval, interval);
        SumShift(initial, interval, hi - interval);
        SumBound(initial / 2, interval, hi - interval);
      }
    }
  }

  lemma {:induction false} SumOfNothing(interval: nat, hi: nat)
    requires interval > 0
    ensures Sum(0, interval, 0, hi) == 0
  {
    if hi > 0 {
      SumOfNothing(interval, hi - 1);
      DivMonotone(0, hi - 1, interval);
      DivUnique(0, Pow2((hi - 1) / interval), 0, 0);
    }
  }

  /** What the heights 1 to `blocks` mint: never past the cap, the cap once emission has ended, and
      strictly less than twice the first interval. */
  lemma EmissionCap(initial: nat, interval: nat, blocks: nat)
    requires interval > 0
    ensures Sum(initial, interval, 1, blocks + 1) <= interval * (2 * initial - OneBits(initial)) - initial
    ensures blocks + 1 >= interval * Bits(initial) ==>
      Sum(initial, interval, 1, blocks + 1) == interval * (2 * initial - OneBits(initial)) - initial
    ensures initial > 0 ==> Sum(initial, interval, 1, blocks + 1) < 2 * initial * interval
  {
    SumBound(initial, interval, blocks + 1);
    SumSplit(initial, interval, 0, 1, blocks + 1);
    FirstInterval(initial, interval, 1);
    CapClosed(initial, interval);
  }

  lemma CapClosed(initial: nat, interval: nat)
    ensures Cap(initial, interval) == interval * (2 * initial - OneBits(initial)) <= 2 * initial * interval
  {
    HalvingsClosed(initial);
    MulMonotone(Halvings(initial), 2 * initial, interval);
  }

  // ---- Issuance -------------------------------------------------------------------------

  datatype Currency<A> = Currency(balances: map<A, nat>, issuance: nat)

  /** `Currency::deposit_creating`: an account that does not exist yet takes no less than the
      existential deposit. */
  function DepositCreating<A>(c: Currency<A>, who: A, value: nat, existentialDeposit: nat): Currency<A> {
    if who in c.balances then
      Currency(c.balances[who := c.balances[who] + value], c.issuance + value)
    else if value < existentialDeposit then
      c
    else
      Currency(c.balances[who := value], c.issuance + value)
  }

  class Pallet<A(==)> {
    const initialReward: nat
    const halvingInterval: nat
    const existentialDeposit: nat
    var currency: Currency<A>

    constructor (initialReward: nat, halvingInterval: nat, existentialDeposit: nat, currency: Currency<A>)
      ensures this.initialReward == initialReward && this.halvingInterval == halvingInterval
      ensures this.existentialDeposit == existentialDeposit && this.currency == currency
    {
      this.initialReward := initialReward;
      this.halvingInterval := halvingInterval;
      this.existentialDeposit := existentialDeposit;
      this.currency := currency;
    }

    method OnFinalize(n: nat, author: Option<A>)
      requires halvingInterval > 0
      modifies this
      ensures currency == AfterBlock(initialReward, halvingInterval, existentialDeposit, old(currency), n, author)
    {
      if author.Some? {
        var reward := BlockReward(initialReward, halvingInterval, n);
        if reward != 0 {
          currency := DepositCreating(currency, author.value, reward, existentialDeposit);
        }
      }
    }
  }

  function AfterBlock<A>(initial: nat, interval: nat, existentialDeposit: nat, c: Currency<A>, n: nat,
                         author: Option<A>): Currency<A>
    requires interval > 0
  {
    if author.Some? && RewardAt(initial, interval, n) != 0
    then DepositCreating(c, author.value, RewardAt(initial, interval, n), existentialDeposit)
    else c
  }

  /** A block with an author whose account exists, or whose reward opens it, pays the author exactly
      the reward of its height and mints exactly that; any other block pays nobody. */
  lemma PaysAuthor<A(!new)>(initial: nat, interval: nat, existentialDeposit: nat, c: Currency<A>, n: nat, author: Option<A>)
    requires interval > 0
    ensures
      var t := AfterBlock(initial, interval, existentialDeposit, c, n, author);
      var reward := initial / Pow2(n / interval);
      var paid := author.Some? && (author.value in c.balances || reward >= Max(1, existentialDeposit));
      && t.issuance == c.issuance + (if paid then reward else 0)
      && (forall who ::
            Balance(t, who) == Balance(c, who) + (if paid && who == author.value then reward else 0))
  {
    DivMonotone(0, n, interval);
    DivMonotone(0, initial, Pow2(n / interval));
  }

  function Balance<A>(c: Currency<A>, who: A): nat {
    if who in c.balances then c.balances[who] else 0
  }

  /** The chain with these authors at the heights 1, 2, and so on. */
  function Chain<A>(initial: nat, interval: nat, existentialDeposit: nat, c: Currency<A>,
                    authors: seq<Option<A>>): Currency<A>
    requires interval > 0
  {
    if authors == [] then c
    else
      var n := |authors| - 1;
      AfterBlock(initial, interval, existentialDeposit,
                 Chain(initial, interval, existentialDeposit, c, authors[..n]), n + 1, authors[n])
  }

  lemma {:induction false} ChainMints<A>(initial: nat, interval: nat, existentialDeposit: nat, c: Currency<A>,
                                         authors: seq<Option<A>>)
    requires interval > 0
    ensures c.issuance <= Chain(initial, interval, existentialDeposit, c, authors).issuance
         <= c.issuance + Sum(initial, interval, 1, |authors| + 1)
  {
    if authors != [] {
      ChainMints(initial, interval, existentialDeposit, c, authors[..|authors| - 1]);
    }
  }

  /** No chain, whoever its authors are and whichever blocks name none, mints past the cap. */
  lemma ChainCap<A>(initial: nat, interval: nat, existentialDeposit: nat, c: Currency<A>, authors: seq<Option<A>>)
    requires interval > 0
    ensures Chain(initial, interval, existentialDeposit, c, authors).issuance - c.issuance
         <= interval * (2 * initial - OneBits(initial)) - initial
  {
    CapClosed(initial, interval);
    ChainMints(initial, interval, existentialDeposit, c, authors);
    EmissionCap(initial, interval, |authors|);
  }
}
