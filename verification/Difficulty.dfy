/** The block hook of pallets/difficulty/src/lib.rs: ASERT from an anchor that moves onto the
    block that ends an outage. */
module Difficulty {
  import opened Asert
  import opened AsertLaws
  import opened Basics
  import opened Powers

  /** The runtime's block number type. */
  type BlockNumber = x: int | 0 <= x <= U32_MAX

  datatype Config = Config(targetBlockTime: U64, halflife: U64, breakThreshold: U64) {
    /** The ideal time of the next block number fits 64 bits, so the source's product cannot wrap. */
    ghost predicate Valid() {
      halflife > 0 && targetBlockTime * (U32_MAX + 1) <= U64_MAX
    }
  }

  datatype Storage = Storage(current: U256, anchorTarget: U256, anchorTimestamp: U64,
                             anchorHeight: U64, lastTimestamp: U64)

  lemma IdealTimeFits(c: Config, heightDelta: int)
    requires c.Valid() && 0 <= heightDelta <= U32_MAX + 1
    ensures 0 <= c.targetBlockTime * heightDelta <= U64_MAX
  {
    MulMonotone(heightDelta, U32_MAX + 1, c.targetBlockTime);
    MulMonotone(0, heightDelta, c.targetBlockTime);
  }

  /** The target a block at `height` and `time` has by the anchor in `s`. */
  function TargetAt(c: Config, s: Storage, height: nat, time: U64): (t: U256)
    requires c.Valid() && height <= U32_MAX + 1
    ensures t >= 1
  {
    IdealTimeFits(c, SaturatingSub(height, s.anchorHeight));
    ComputeNextTarget(s.anchorTarget, time - s.anchorTimestamp, SaturatingSub(height, s.anchorHeight),
                      c.targetBlockTime, c.halflife)
  }

  function ToDifficulty(target: U256): (d: U256)
    requires target >= 1
  {
    DivNoLarger(U256_MAX, target);
    DivMonotone(0, U256_MAX, target);
    U256_MAX / target
  }

  predicate Breaks(c: Config, s: Storage, now: U64) {
    now - s.lastTimestamp > c.breakThreshold
  }

  /** The storage after the block at `height` with timestamp `now`, in seconds. */
  function AfterBlock(c: Config, s: Storage, height: BlockNumber, now: U64): Storage
    requires c.Valid()
  {
    if s.anchorTimestamp == 0 && now > 0 then
      s.(anchorTimestamp := now, anchorHeight := height, lastTimestamp := now)
    else if height <= s.anchorHeight || s.anchorTarget == 0 then
      s.(lastTimestamp := now)
    else
      var target := TargetAt(c, s, height, now);
      var settled := s.(current := ToDifficulty(target), lastTimestamp := now);
      if Breaks(c, s, now)
      then settled.(anchorTarget := target, anchorTimestamp := now, anchorHeight := height)
      else settled
  }

  /** `realtime_difficulty` on the state a block at `height` left behind. */
  function Realtime(c: Config, s: Storage, height: BlockNumber, time: U64): U256
    requires c.Valid()
  {
    ToDifficulty(TargetAt(c, s, height + 1, time))
  }

  class Pallet {
    const config: Config
    var currentDifficulty: U256
    var anchorTarget: U256
    var anchorTimestamp: U64
    var anchorHeight: U64
    var lastBlockTimestamp: U64

    function Contents(): Storage
      reads this
    {
      Storage(currentDifficulty, anchorTarget, anchorTimestamp, anchorHeight, lastBlockTimestamp)
    }

    /** The genesis build. A zero difficulty aborts it. */
    constructor (config: Config, initialDifficulty: U256)
      requires initialDifficulty != 0
      ensures this.config == config && Contents() == Genesis(initialDifficulty)
    {
      this.config := config;
      currentDifficulty := initialDifficulty;
      anchorTarget := ToDifficulty(initialDifficulty);
      anchorTimestamp, anchorHeight, lastBlockTimestamp := 0, 0, 0;
    }

    method OnFinalize(currentHeight: BlockNumber, nowMs: U64)
      requires config.Valid()
      modifies this
      ensures Contents() == AfterBlock(config, old(Contents()), currentHeight, nowMs / 1000)
    {
      var nowSecs: U64 := nowMs / 1000;
      if anchorTimestamp == 0 && nowSecs > 0 {
        anchorTimestamp := nowSecs;
        anchorHeight := currentHeight;
        lastBlockTimestamp := nowSecs;
        return;
      }
      if currentHeight <= anchorHeight {
        lastBlockTimestamp := nowSecs;
        return;
      }
      var heightDelta: U64 := SaturatingSub(currentHeight, anchorHeight);
      var timeDelta: I128 := nowSecs - anchorTimestamp;
      if anchorTarget == 0 {
        lastBlockTimestamp := nowSecs;
        return;
      }
      IdealTimeFits(config, heightDelta);
      var nextTarget := ComputeNextTarget(anchorTarget, timeDelta, heightDelta,
                                          config.targetBlockTime, config.halflife);
      currentDifficulty := ToDifficulty(nextTarget);
      var blockGap := SaturatingSub(nowSecs, lastBlockTimestamp);
      if blockGap > config.breakThreshold {
        anchorTarget := nextTarget;
        anchorTimestamp := nowSecs;
        anchorHeight := currentHeight;
      }
      lastBlockTimestamp := nowSecs;
    }

    method RealtimeDifficulty(currentHeight: BlockNumber, blockTimestampSecs: U64) returns (d: U256)
      requires config.Valid()
      ensures d == Realtime(config, Contents(), currentHeight, blockTimestampSecs)
    {
      var nextHeight := currentHeight + 1;
      var heightDelta: U64 := SaturatingSub(nextHeight, anchorHeight);
      IdealTimeFits(config, heightDelta);
      var nextTarget := ComputeNextTarget(anchorTarget, blockTimestampSecs - anchorTimestamp, heightDelta,
                                          config.targetBlockTime, config.halflife);
      d := ToDifficulty(nextTarget);
    }
  }

  // ---- Runs ---------------------------------------------------------------------------------

  function Genesis(initialDifficulty: U256): Storage
    requires initialDifficulty != 0
  {
    Storage(initialDifficulty, ToDifficulty(initialDifficulty), 0, 0, 0)
  }

  /** The blocks above `height`, with these timestamps, one after the other. */
  function Run(c: Config, s: Storage, height: BlockNumber, times: seq<U64>): Storage
    requires c.Valid() && height + |times| <= U32_MAX
    decreases |times|
  {
    if times == [] then s
    else Run(c, AfterBlock(c, s, height + 1, times[0]), height + 1, times[1..])
  }

  ghost predicate Sound(s: Storage, height: int) {
    && s.anchorHeight <= height
    && s.anchorTarget >= 1
    && (s.anchorTimestamp == 0 ==> s.anchorHeight == 0)
  }

  lemma {:induction false} RunSound(c: Config, s: Storage, height: BlockNumber, times: seq<U64>)
    requires c.Valid() && height + |times| <= U32_MAX && Sound(s, height)
    ensures Sound(Run(c, s, height, times), height + |times|)
    decreases |times|
  {
    if times != [] {
      RunSound(c, AfterBlock(c, s, height + 1, times[0]), height + 1, times[1..]);
    }
  }

  /** In every reachable state with an anchor, what a node computes from the parent state for a
      timestamp is what the child block with that timestamp records. Before there is an anchor
      it also holds for the timestamp zero; any other child becomes the anchor and records the
      difficulty it found. */
  lemma RealtimeIsRecorded(c: Config, initialDifficulty: U256, times: seq<U64>, time: U64)
    requires c.Valid() && initialDifficulty != 0 && |times| < U32_MAX
    ensures
      var parent := Run(c, Genesis(initialDifficulty), 0, times);
      var child := AfterBlock(c, parent, |times| + 1, time);
      && Sound(parent, |times|)
      && (parent.anchorTimestamp != 0 || time == 0 ==>
            child.current == Realtime(c, parent, |times|, time))
      && (parent.anchorTimestamp == 0 && time != 0 ==>
            child.current == parent.current && child.anchorTimestamp == time)
  {
    AnchorExists(initialDifficulty);
    RunSound(c, Genesis(initialDifficulty), 0, times);
  }

  lemma AnchorExists(initialDifficulty: U256)
    requires initialDifficulty != 0
    ensures ToDifficulty(initialDifficulty) >= 1
  {
    DivMonotone(initialDifficulty, U256_MAX, initialDifficulty);
    DivUnique(initialDifficulty, initialDifficulty, 1, 0);
  }

  /** Once set, the anchor stays set. */
  lemma {:induction false} AnchorStays(c: Config, s: Storage, height: BlockNumber, times: seq<U64>)
    requires c.Valid() && height + |times| <= U32_MAX
    requires s.anchorTimestamp != 0
    ensures Run(c, s, height, times).anchorTimestamp != 0
    decreases |times|
  {
    if times != [] {
      AnchorStays(c, AfterBlock(c, s, height + 1, times[0]), height + 1, times[1..]);
    }
  }

  // ---- What is recorded ---------------------------------------------------------------------

  /** How often `target` goes into the maximum. */
  ghost predicate Inverse(d: int, target: int) {
    d * target <= U256_MAX < (d + 1) * target
  }

  lemma DividesIntoMax(target: U256)
    requires target >= 1
    ensures Inverse(ToDifficulty(target), target)
  {
    var d := U256_MAX / target;
    assert U256_MAX == d * target + U256_MAX % target;
    MulAdd(target, d, 1, d + 1);
  }

  /** The saturated target of the formula, for the block above `height`. */
  ghost function FormulaTarget(c: Config, s: Storage, height: BlockNumber, time: U64): int
    requires c.Valid()
  {
    Target(s.anchorTarget,
           Exponent(time - s.anchorTimestamp - c.targetBlockTime * (height + 1 - s.anchorHeight), c.halflife))
  }

  lemma TargetIsFormula(c: Config, s: Storage, height: BlockNumber, time: U64)
    requires c.Valid() && Sound(s, height)
    ensures TargetAt(c, s, height + 1, time) == FormulaTarget(c, s, height, time) >= 1
  {
    var delta := height + 1 - s.anchorHeight;
    IdealTimeFits(c, delta);
    ComputeIsTarget(s.anchorTarget, time - s.anchorTimestamp, delta, c.targetBlockTime, c.halflife);
    hide ComputeNextTarget, Target;
  }

  /** In every state with an anchor, both the block above it and the runtime call give the number of
      times the target of the formula goes into the maximum. */
  lemma RecordsInverse(c: Config, s: Storage, height: BlockNumber, time: U64)
    requires c.Valid() && height < U32_MAX && Sound(s, height) && s.anchorTimestamp != 0
    ensures Inverse(AfterBlock(c, s, height + 1, time).current, FormulaTarget(c, s, height, time))
    ensures Inverse(Realtime(c, s, height, time), FormulaTarget(c, s, height, time))
  {
    TargetIsFormula(c, s, height, time);
    DividesIntoMax(TargetAt(c, s, height + 1, time));
    hide TargetAt, FormulaTarget, ToDifficulty, Inverse;
  }

  /** Genesis records the difficulty it is given and anchors the target that goes into the maximum
      that often. */
  lemma GenesisInverse(initialDifficulty: U256)
    requires initialDifficulty != 0
    ensures
      var s := Genesis(initialDifficulty);
      && s.current == initialDifficulty && Inverse(s.anchorTarget, initialDifficulty)
      && s.anchorTimestamp == 0 && s.anchorHeight == 0
  {
    DividesIntoMax(initialDifficulty);
  }

  /** The first block with a timestamp is the anchor. From then on a block becomes the anchor, with
      its own target, precisely if it comes more than the threshold after its parent. */
  lemma AnchorMoves(c: Config, s: Storage, height: BlockNumber, time: U64)
    requires c.Valid() && height < U32_MAX && Sound(s, height)
    ensures
      var t := AfterBlock(c, s, height + 1, time);
      && t.lastTimestamp == time
      && (t.anchorHeight == height + 1 <==>
            if s.anchorTimestamp == 0 then time > 0 else time - s.lastTimestamp > c.breakThreshold)
      && (t.anchorHeight == height + 1 ==> t.anchorTimestamp == time)
      && (t.anchorHeight == height + 1 && s.anchorTimestamp != 0 ==>
            t.anchorTarget == FormulaTarget(c, s, height, time))
      && (t.anchorHeight == height + 1 && s.anchorTimestamp == 0 ==>
            t.anchorTarget == s.anchorTarget && t.current == s.current)
      && (t.anchorHeight != height + 1 ==> t == s.(current := t.current, lastTimestamp := time))
  {
    TargetIsFormula(c, s, height, time);
    hide TargetAt, FormulaTarget, ToDifficulty;
  }

  /** No block of the run comes more than the threshold after its parent. */
  ghost predicate Unbroken(c: Config, last: U64, times: seq<U64>)
    decreases |times|
  {
    times == [] || (times[0] - last <= c.breakThreshold && Unbroken(c, times[0], times[1..]))
  }

  /** Between breaks the difficulty has no memory: it is a function of the anchor and of the
      block's own height and time, whatever the blocks between them did. */
  lemma {:induction false} NoMemory(c: Config, s: Storage, height: BlockNumber, times: seq<U64>)
    requires c.Valid() && height + |times| <= U32_MAX && times != []
    requires Sound(s, height) && s.anchorTimestamp != 0
    requires Unbroken(c, s.lastTimestamp, times)
    ensures
      var end := Run(c, s, height, times);
      && end.current == ToDifficulty(TargetAt(c, s, height + |times|, times[|times| - 1]))
      && end == s.(current := end.current, lastTimestamp := times[|times| - 1])
    decreases |times|
  {
    var next := AfterBlock(c, s, height + 1, times[0]);
    UnbrokenBlock(c, s, height, times[0]);
    SameAnchor(c, s, next, height + |times|, times[|times| - 1]);
    hide AfterBlock, TargetAt, ToDifficulty;
    if |times| == 1 {
      assert Run(c, next, height + 1, []) == next;
      assert times[1..] == [];
    } else {
      NoMemory(c, next, height + 1, times[1..]);
      assert times[1..][|times[1..]| - 1] == times[|times| - 1];
    }
  }

  lemma UnbrokenBlock(c: Config, s: Storage, height: BlockNumber, time: U64)
    requires c.Valid() && height < U32_MAX && Sound(s, height) && s.anchorTimestamp != 0
    requires time - s.lastTimestamp <= c.breakThreshold
    ensures AfterBlock(c, s, height + 1, time)
         == s.(current := ToDifficulty(TargetAt(c, s, height + 1, time)), lastTimestamp := time)
  {
    hide TargetAt, ToDifficulty;
  }

  lemma SameAnchor(c: Config, s: Storage, t: Storage, height: BlockNumber, time: U64)
    requires c.Valid() && t == s.(current := t.current, lastTimestamp := t.lastTimestamp)
    ensures TargetAt(c, t, height, time) == TargetAt(c, s, height, time)
  {
    hide ComputeNextTarget;
  }

  /** A block that ends an outage becomes the anchor. Every later block that is on schedule
      relative to it, with no further break, has its difficulty. */
  lemma RecoveryHoldsDifficulty(c: Config, s: Storage, height: BlockNumber, now: U64, times: seq<U64>)
    requires c.Valid() && height + 1 + |times| <= U32_MAX && times != []
    requires Sound(s, height) && s.anchorTimestamp != 0
    requires now - s.lastTimestamp > c.breakThreshold
    requires Unbroken(c, now, times)
    requires times[|times| - 1] == now + c.targetBlockTime * |times|
    ensures
      var recovery := AfterBlock(c, s, height + 1, now);
      && recovery.anchorHeight == height + 1 && recovery.anchorTimestamp == now
      && Run(c, recovery, height + 1, times).current == recovery.current
  {
    hide ComputeNextTarget, Run, Unbroken;
    var recovery := AfterBlock(c, s, height + 1, now);
    NoMemory(c, recovery, height + 1, times);
    IdealTimeFits(c, |times|);
    OnSchedule(recovery.anchorTarget, |times|, c.targetBlockTime, c.halflife);
  }

  /** A later timestamp never asks for more difficulty, so a miner cannot be made to work
      harder by waiting. */
  lemma LaterIsNoHarder(c: Config, s: Storage, height: BlockNumber, time: U64, time': U64)
    requires c.Valid() && Sound(s, height)
    requires time <= time'
    ensures Realtime(c, s, height, time') <= Realtime(c, s, height, time)
  {
    var delta := height + 1 - s.anchorHeight;
    IdealTimeFits(c, delta);
    ComputeMonotone(s.anchorTarget, time - s.anchorTimestamp, delta, time' - s.anchorTimestamp, delta,
                    c.targetBlockTime, c.halflife);
    DivAntitone(U256_MAX, TargetAt(c, s, height + 1, time), TargetAt(c, s, height + 1, time'));
  }

  lemma DivAntitone(a: nat, d: int, e: int)
    requires 0 < d <= e
    ensures a / e <= a / d
  {
    var q := a / e;
    assert a == q * e + a % e;
    DivMonotone(0, a, e);
    MulMonotone(d, e, q);
    DivMonotone(q * d, a, d);
    MulDivCancel(q, d);
  }
}
