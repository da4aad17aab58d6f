/** Total difficulty and fork choice of consensus/sc-consensus-pow/src/lib.rs under finality. */
module ForkChoice {
  import opened Basics
  import opened BlockTree

  /** What the client holds: the block tree, the stored total difficulties, the best and the
      finalized block. `arrival` numbers the blocks in the order they came in. */
  datatype Chain = Chain(genesis: Hash, blocks: map<Hash, Block>, totals: map<Hash, nat>, best: Hash,
                         finalized: Hash, arrival: map<Hash, nat>)

  function Origin(genesis: Hash): (c: Chain)
    ensures Sound(c)
  {
    Chain(genesis, map[genesis := Block(genesis, 0, 0)], map[], genesis, genesis, map[genesis := 0])
  }

  /** `PowAux::read`: a block without stored auxiliary data has total difficulty zero. */
  function Total(c: Chain, hash: Hash): nat {
    if hash in c.totals then c.totals[hash] else 0
  }

  /** `TotalDifficulty::increment` on 256-bit integers saturates. */
  function Increment(total: nat, difficulty: nat): nat {
    Min(U256_MAX, total + difficulty)
  }

  /** `break_tie`, which the algorithm in use leaves at its default. */
  predicate BreakTie() {
    false
  }

  /** The fork choice of a block, or none if the import fails before it is made: on a missing
      header, or on a tie with the genesis block, which carries no seal. */
  function Choose(c: Chain, hash: Hash, block: Block): Option<bool>
    requires c.finalized in c.blocks
  {
    match Conflicts(hash, block.number, block.parent, c.finalized, c.blocks[c.finalized].number, c.blocks)
    case MissingHeader(_) => None
    case Ok(true) => Some(false)
    case Ok(false) =>
      var total, best := Increment(Total(c, block.parent), block.difficulty), Total(c, c.best);
      if total < best then Some(false)
      else if total > best then Some(true)
      else if c.best == c.genesis then None
      else Some(BreakTie())
  }

  /** What the client takes: a block on a known parent with the next number. A hash names one block. */
  predicate Fits(c: Chain, hash: Hash, block: Block) {
    && Linked(c.blocks, block)
    && (hash in c.blocks ==> c.blocks[hash] == block)
  }

  function Insert(c: Chain, hash: Hash, block: Block, best: bool): Chain {
    c.(blocks := c.blocks[hash := block],
       totals := c.totals[hash := Increment(Total(c, block.parent), block.difficulty)],
       best := if best then hash else c.best,
       arrival := if hash in c.blocks then c.arrival else c.arrival[hash := |c.blocks|])
  }

  /** `import_block`, with the fork choice the caller preset, if any. */
  function Import(c: Chain, hash: Hash, block: Block, preset: Option<bool>): Chain
    requires c.finalized in c.blocks
  {
    if !Fits(c, hash, block) then c
    else
      var choice := if preset.Some? then preset else Choose(c, hash, block);
      if choice.None? then c else Insert(c, hash, block, choice.value)
  }

  class Client {
    const genesis: Hash
    var blocks: map<Hash, Block>
    var totals: map<Hash, nat>
    var best: Hash
    var finalized: Hash
    ghost var arrival: map<Hash, nat>

    ghost function Contents(): Chain
      reads this
    {
      Chain(genesis, blocks, totals, best, finalized, arrival)
    }

    constructor (genesis: Hash)
      ensures Contents() == Origin(genesis)
    {
      this.genesis := genesis;
      blocks, totals := map[genesis := Block(genesis, 0, 0)], map[];
      best, finalized := genesis, genesis;
      arrival := map[genesis := 0];
    }

    /** Along every run this is the work on the path from genesis, and nothing for an unknown block. */
    method ReadTotal(hash: Hash) returns (total: nat)
      ensures total == Total(Contents(), hash)
      ensures Structure(Contents()) ==>
        total == if hash in blocks then Min(U256_MAX, PathSum(Contents(), hash)) else 0
    {
      ghost var c := Contents();
      if Structure(c) && hash in blocks {
        TotalIsPathSum(c, hash);
      }
      total := 0;
      if hash in totals {
        total := totals[hash];
      }
    }

    /** The finality check, the comparison of totals and the tie. */
    method ForkChoiceOf(hash: Hash, block: Block) returns (choice: Option<bool>)
      requires finalized in blocks
      ensures choice == Choose(Contents(), hash, block)
    {
      var conflicts := FinalityConflicts(hash, block.number, block.parent, finalized, blocks[finalized].number, blocks);
      if conflicts.MissingHeader? {
        return None;
      }
      if conflicts.value {
        return Some(false);
      }
      var bestTotal := ReadTotal(best);
      var total := ReadTotal(block.parent);
      total := Min(U256_MAX, total + block.difficulty);
      if total != bestTotal {
        return Some(total > bestTotal);
      }
      if best == genesis {
        return None;
      }
      return Some(BreakTie());
    }

    method ImportBlock(hash: Hash, block: Block, preset: Option<bool>) returns (imported: bool)
      requires finalized in blocks
      modifies this
      ensures Contents() == Import(old(Contents()), hash, block, preset)
      ensures !imported ==> Contents() == old(Contents())
      ensures imported ==> hash in blocks && blocks[hash] == block
      ensures Sound(old(Contents())) ==>
        (imported <==> Fits(old(Contents()), hash, block)
                       && (preset.Some? || !TiesWithGenesis(old(Contents()), hash, block)))
    {
      hide TiesWithGenesis, Sound, Choose, Structure, PathSum;
      ChoiceMade(Contents(), hash, block);
      var total := ReadTotal(block.parent);
      total := Min(U256_MAX, total + block.difficulty);
      var choice := preset;
      if preset.None? {
        choice := ForkChoiceOf(hash, block);
        if choice.None? {
          return false;
        }
      }
      if !Linked(blocks, block) || (hash in blocks && blocks[hash] != block) {
        return false;
      }
      arrival := if hash in blocks then arrival else arrival[hash := |blocks|];
      blocks := blocks[hash := block];
      totals := totals[hash := total];
      if choice.value {
        best := hash;
      }
      return true;
    }
  }

  // ---- What every run keeps -------------------------------------------------------------------

  /** The stored total is the parent's plus the block's own difficulty. */
  ghost predicate Added(c: Chain, h: Hash)
    requires h in c.blocks
  {
    h in c.totals && c.totals[h] == Increment(Total(c, c.blocks[h].parent), c.blocks[h].difficulty)
  }

  ghost predicate TotalsAdd(c: Chain)
  {
    && c.genesis !in c.totals && c.totals.Keys <= c.blocks.Keys
    && (forall h {:trigger Added(c, h)} | h in c.blocks && h != c.genesis :: Added(c, h))
  }

  /** No two blocks came in at once. */
  ghost predicate ArrivalsOrdered(c: Chain) {
    && (forall h {:trigger c.arrival[h]} | h in c.arrival :: c.arrival[h] < |c.blocks|)
    && (forall g, h {:trigger c.arrival[g], c.arrival[h]} |
          g in c.arrival && h in c.arrival && c.arrival[g] == c.arrival[h] :: g == h)
  }

  /** `h` does not beat the best block: it has no more total difficulty, and with as much it came later. */
  ghost predicate Behind(c: Chain, h: Hash)
    requires h in c.arrival && c.best in c.arrival
  {
    Total(c, h) < Total(c, c.best) || (Total(c, h) == Total(c, c.best) && c.arrival[c.best] <= c.arrival[h])
  }

  ghost predicate Structure(c: Chain) {
    && Tree(c.blocks, c.genesis) && c.best in c.blocks && c.finalized in c.blocks
    && c.arrival.Keys == c.blocks.Keys && TotalsAdd(c) && ArrivalsOrdered(c)
  }

  /** The best block is above the finalized one, and it is the first seen among the blocks in line
      with finality that have the greatest total difficulty. */
  ghost predicate Sound(c: Chain) {
    && Structure(c)
    && Descends(c.blocks, c.genesis, c.finalized, c.best)
    && (forall h {:trigger Behind(c, h)} | h in c.blocks && Compatible(c.blocks, c.genesis, c.finalized, h) :: Behind(c, h))
  }

  lemma InsertStructure(c: Chain, hash: Hash, block: Block, best: bool)
    requires Structure(c) && Fits(c, hash, block)
    ensures Structure(Insert(c, hash, block, best))
  {
    hide ArrivalsOrdered;
    var c' := Insert(c, hash, block, best);
    AddKeepsTree(c.blocks, c.genesis, hash, block);
    InsertTotals(c, hash, block, best);
    forall h | h in c'.blocks && h != c'.genesis
      ensures Added(c', h)
    {
      if h != hash {
        assert Added(c, h) && Linked(c.blocks, c.blocks[h]);
      }
    }
    InsertArrivals(c, hash, block, best);
  }

  lemma InsertArrivals(c: Chain, hash: Hash, block: Block, best: bool)
    requires Structure(c) && Fits(c, hash, block)
    ensures ArrivalsOrdered(Insert(c, hash, block, best))
  {
    hide TotalsAdd;
    var c' := Insert(c, hash, block, best);
    if hash in c.blocks {
      assert c'.blocks == c.blocks;
      return;
    }
    assert |c'.blocks| == |c.blocks| + 1;
    forall g, h | g in c'.arrival && h in c'.arrival && c'.arrival[g] == c'.arrival[h] ensures g == h {
      assert g != hash ==> c'.arrival[g] == c.arrival[g] < |c.blocks|;
      assert h != hash ==> c'.arrival[h] == c.arrival[h] < |c.blocks|;
    }
    forall h | h in c'.arrival ensures c'.arrival[h] < |c'.blocks| {
      assert h != hash ==> c'.arrival[h] == c.arrival[h] < |c.blocks|;
    }
  }

  /** Inserting a block, even again, leaves the totals of the known ones. */
  lemma InsertTotals(c: Chain, hash: Hash, block: Block, best: bool)
    requires Structure(c) && Fits(c, hash, block)
    ensures forall h {:trigger Total(Insert(c, hash, block, best), h)} | h in c.blocks ::
      Total(Insert(c, hash, block, best), h) == Total(c, h)
  {
    if hash in c.blocks {
      assert Added(c, hash);
    }
  }

  /** A block in line with finality that the client does not know yet lies above the finalized one. */
  lemma NewIsAbove(c: Chain, hash: Hash, block: Block)
    requires Structure(c) && Fits(c, hash, block) && hash !in c.blocks
    requires Tree(c.blocks[hash := block], c.genesis)
    requires Compatible(c.blocks[hash := block], c.genesis, c.finalized, hash)
    ensures Descends(c.blocks[hash := block], c.genesis, c.finalized, hash)
  {
    AddKeepsDescends(c.blocks, c.genesis, hash, block, hash, c.finalized);
    if Descends(c.blocks, c.genesis, hash, c.finalized) {
      DescendsNumber(c.blocks, c.genesis, hash, c.finalized);
    }
  }

  lemma ImportSound(c: Chain, hash: Hash, block: Block)
    requires Sound(c)
    ensures Sound(Import(c, hash, block, None))
  {
    hide TotalsAdd, ArrivalsOrdered, Increment;
    var choice := Choose(c, hash, block);
    if Fits(c, hash, block) && choice.Some? {
      var best := choice.value;
      InsertStructure(c, hash, block, best);
      ConflictsIsExact(c.blocks, c.genesis, hash, block, c.finalized);
      if best {
        NewBest(c, hash, block);
      } else {
        SameBest(c, hash, block);
      }
    }
  }

  lemma KnownNeverBeats(c: Chain, hash: Hash, block: Block)
    requires Sound(c) && Fits(c, hash, block) && Tree(c.blocks[hash := block], c.genesis)
    ensures hash in c.blocks && Compatible(c.blocks[hash := block], c.genesis, c.finalized, hash) ==>
      Increment(Total(c, block.parent), block.difficulty) <= Total(c, c.best)
  {
    hide ArrivalsOrdered;
    if hash in c.blocks {
      assert c.blocks[hash := block] == c.blocks;
      assert Added(c, hash);
      assert Compatible(c.blocks, c.genesis, c.finalized, hash) ==> Behind(c, hash);
    }
  }

  /** A strictly heavier block in line with finality is new, lies above it, and beats every other. */
  lemma NewBest(c: Chain, hash: Hash, block: Block)
    requires Sound(c) && Fits(c, hash, block) && Choose(c, hash, block) == Some(true)
    requires Structure(Insert(c, hash, block, true))
    requires Compatible(c.blocks[hash := block], c.genesis, c.finalized, hash)
    ensures Sound(Insert(c, hash, block, true))
  {
    hide ArrivalsOrdered, TotalsAdd, Increment;
    var c' := Insert(c, hash, block, true);
    InsertTotals(c, hash, block, true);
    KnownNeverBeats(c, hash, block);
    NewIsAbove(c, hash, block);
    forall h | h in c'.blocks && Compatible(c'.blocks, c'.genesis, c'.finalized, h) ensures Behind(c', h) {
      if h != hash {
        KeepsCompatible(c, hash, block, h);
        assert Behind(c, h);
      }
    }
  }

  lemma KeepsCompatible(c: Chain, hash: Hash, block: Block, h: Hash)
    requires Structure(c) && Fits(c, hash, block) && h in c.blocks && Tree(c.blocks[hash := block], c.genesis)
    ensures Compatible(c.blocks[hash := block], c.genesis, c.finalized, h)
       <==> Compatible(c.blocks, c.genesis, c.finalized, h)
  {
    AddKeepsDescends(c.blocks, c.genesis, hash, block, h, c.finalized);
    AddKeepsDescends(c.blocks, c.genesis, hash, block, c.finalized, h);
  }

  lemma SameBest(c: Chain, hash: Hash, block: Block)
    requires Sound(c) && Fits(c, hash, block) && Choose(c, hash, block) == Some(false)
    requires Structure(Insert(c, hash, block, false))
    requires Conflicts(hash, block.number, block.parent, c.finalized, c.blocks[c.finalized].number, c.blocks)
          == Ok(!Compatible(c.blocks[hash := block], c.genesis, c.finalized, hash))
    ensures Sound(Insert(c, hash, block, false))
  {
    hide TotalsAdd, Increment;
    var c' := Insert(c, hash, block, false);
    InsertTotals(c, hash, block, false);
    AddKeepsDescends(c.blocks, c.genesis, hash, block, c.finalized, c.best);
    forall h | h in c'.blocks && Compatible(c'.blocks, c'.genesis, c'.finalized, h) ensures Behind(c', h) {
      if h in c.blocks {
        KeepsCompatible(c, hash, block, h);
        assert Behind(c, h);
      } else {
        assert h == hash && c'.arrival[c'.best] < |c.blocks|;
      }
    }
  }

  // ---- What an import does --------------------------------------------------------------------

  /** The total difficulty of a new block: the work on its path, saturated. */
  ghost function NewTotal(c: Chain, block: Block): int
    requires Structure(c) && block.parent in c.blocks
  {
    Min(U256_MAX, PathSum(c, block.parent) + block.difficulty)
  }

  ghost predicate InLine(c: Chain, hash: Hash, block: Block)
    requires Structure(c) && Fits(c, hash, block)
  {
    AddKeepsTree(c.blocks, c.genesis, hash, block);
    Compatible(c.blocks[hash := block], c.genesis, c.finalized, hash)
  }

  /** A block in line with finality that carries no work, while genesis is the best. */
  ghost predicate TiesWithGenesis(c: Chain, hash: Hash, block: Block)
    requires Structure(c) && Fits(c, hash, block)
  {
    c.best == c.genesis && InLine(c, hash, block) && NewTotal(c, block) == 0
  }

  lemma ChoiceIs(c: Chain, hash: Hash, block: Block)
    requires Sound(c) && Fits(c, hash, block)
    ensures Increment(Total(c, block.parent), block.difficulty) == NewTotal(c, block)
    ensures Choose(c, hash, block)
         == if TiesWithGenesis(c, hash, block) then None
            else Some(InLine(c, hash, block) && NewTotal(c, block) > Total(c, c.best))
  {
    AddKeepsTree(c.blocks, c.genesis, hash, block);
    ConflictsIsExact(c.blocks, c.genesis, hash, block, c.finalized);
    TotalIsPathSum(c, block.parent);
    hide ArrivalsOrdered, Compatible, Conflicts, PathSum, Tree;
  }

  lemma ChoiceMade(c: Chain, hash: Hash, block: Block)
    requires c.finalized in c.blocks
    ensures Sound(c) && Fits(c, hash, block) ==> (Choose(c, hash, block).Some? <==> !TiesWithGenesis(c, hash, block))
  {
    if Sound(c) && Fits(c, hash, block) {
      ChoiceIs(c, hash, block);
    }
  }

  /** Every block that fits is stored with the work on its path, whether it becomes the best or not,
      and it becomes the best precisely if it is in line with finality and has more work than the
      best. The one exception is a block without work on genesis, which is refused. */
  lemma ImportExactly(c: Chain, hash: Hash, block: Block)
    requires Sound(c)
    ensures
      var t := Import(c, hash, block, None);
      if !Fits(c, hash, block) || TiesWithGenesis(c, hash, block) then t == c
      else
        && t.blocks == c.blocks[hash := block] && t.genesis == c.genesis && t.finalized == c.finalized
        && Total(t, hash) == NewTotal(c, block)
        && t.best == (if InLine(c, hash, block) && NewTotal(c, block) > Min(U256_MAX, PathSum(c, c.best))
                      then hash else c.best)
        && (forall h | h in c.blocks :: Total(t, h) == Total(c, h))
  {
    if Fits(c, hash, block) {
      ChoiceIs(c, hash, block);
      TotalIsPathSum(c, c.best);
      if !TiesWithGenesis(c, hash, block) {
        InsertTotals(c, hash, block, Choose(c, hash, block).value);
      }
    }
    hide Choose, TiesWithGenesis, InLine, NewTotal, PathSum, ArrivalsOrdered, TotalsAdd, Tree;
  }

  // ---- Runs -----------------------------------------------------------------------------------

  datatype Step = ImportStep(hash: Hash, block: Block) | FinalizeStep(hash: Hash)

  /** Finality advances from the finalized block along the best chain. */
  ghost predicate MayFinalize(c: Chain, hash: Hash)
    requires Structure(c)
  {
    hash in c.blocks && Descends(c.blocks, c.genesis, c.finalized, hash) && Descends(c.blocks, c.genesis, hash, c.best)
  }

  ghost function Apply(c: Chain, step: Step): Chain
    requires Structure(c)
  {
    match step
    case ImportStep(hash, block) => Import(c, hash, block, None)
    case FinalizeStep(hash) => if MayFinalize(c, hash) then c.(finalized := hash) else c
  }

  /** Totals and arrivals do not depend on finality. */
  lemma FinalizeStructure(c: Chain, hash: Hash)
    requires Structure(c) && hash in c.blocks
    ensures Structure(c.(finalized := hash))
    ensures forall h :: Total(c.(finalized := hash), h) == Total(c, h)
  {
    var c' := c.(finalized := hash);
    forall h | h in c'.blocks && h != c'.genesis ensures Added(c', h) {
      assert Added(c, h);
    }
  }

  lemma FinalizeSound(c: Chain, hash: Hash)
    requires Sound(c) && MayFinalize(c, hash)
    ensures Sound(c.(finalized := hash))
  {
    var c' := c.(finalized := hash);
    FinalizeStructure(c, hash);
    hide ArrivalsOrdered, TotalsAdd, Total;
    forall h | h in c'.blocks && Compatible(c'.blocks, c'.genesis, c'.finalized, h) ensures Behind(c', h) {
      if Descends(c.blocks, c.genesis, hash, h) {
        DescendsTrans(c.blocks, c.genesis, c.finalized, hash, h);
      } else {
        AncestorsInLine(c.blocks, c.genesis, h, c.finalized, hash);
      }
      assert Behind(c, h);
    }
  }

  lemma ApplySound(c: Chain, step: Step)
    requires Sound(c)
    ensures Sound(Apply(c, step))
  {
    match step {
      case ImportStep(hash, block) => ImportSound(c, hash, block);
      case FinalizeStep(hash) => if MayFinalize(c, hash) { FinalizeSound(c, hash); }
    }
  }

  ghost function Run(c: Chain, steps: seq<Step>): (end: Chain)
    requires Sound(c)
    ensures Sound(end)
    decreases |steps|
  {
    if steps == [] then c
    else
      ApplySound(c, steps[0]);
      Run(Apply(c, steps[0]), steps[1..])
  }

  /** After any imports and finalizations from genesis: the best block is the finalized one or
      above it, no block in line with finality has more total difficulty, and among those with as
      much the best one came first. */
  lemma BestIsBest(genesis: Hash, steps: seq<Step>)
    ensures
      var c := Run(Origin(genesis), steps);
      && Descends(c.blocks, c.genesis, c.finalized, c.best)
      && (forall h | h in c.blocks && Compatible(c.blocks, c.genesis, c.finalized, h) && h != c.best ::
            || Total(c, h) < Total(c, c.best)
            || (Total(c, h) == Total(c, c.best) && c.arrival[c.best] < c.arrival[h]))
  {
    var c := Run(Origin(genesis), steps);
    forall h | h in c.blocks && Compatible(c.blocks, c.genesis, c.finalized, h) && h != c.best
      ensures || Total(c, h) < Total(c, c.best)
              || (Total(c, h) == Total(c, c.best) && c.arrival[c.best] < c.arrival[h])
    {
      assert Behind(c, h);
      assert c.arrival[h] != c.arrival[c.best];
    }
  }

  /** A step keeps every block and moves finality only upwards. */
  lemma ApplyGrows(c: Chain, step: Step)
    requires Sound(c)
    ensures Sound(Apply(c, step))
    ensures
      var c' := Apply(c, step);
      && c'.genesis == c.genesis
      && (forall h | h in c.blocks :: h in c'.blocks && c'.blocks[h] == c.blocks[h])
      && Descends(c'.blocks, c'.genesis, c.finalized, c'.finalized)
  {
    hide ArrivalsOrdered, TotalsAdd, Increment, Total, Behind, Conflicts;
    ApplySound(c, step);
    var c' := Apply(c, step);
    match step {
      case ImportStep(hash, block) => assert c'.finalized == c.finalized;
      case FinalizeStep(hash) => assert c'.blocks == c.blocks;
    }
  }

  lemma {:induction false} GrownDescends(c: Chain, c': Chain, a: Hash, b: Hash)
    requires Structure(c) && Structure(c') && c'.genesis == c.genesis
    requires forall h | h in c.blocks :: h in c'.blocks && c'.blocks[h] == c.blocks[h]
    requires b in c.blocks && Descends(c.blocks, c.genesis, a, b)
    ensures Descends(c'.blocks, c'.genesis, a, b)
    decreases c.blocks[b].number
  {
    if a != b {
      GrownDescends(c, c', a, c.blocks[b].parent);
    }
  }

  /** A block once finalized stays below the finalized and the best block for ever. */
  lemma {:induction false} FinalityStays(c: Chain, steps: seq<Step>)
    requires Sound(c)
    ensures
      var end := Run(c, steps);
      && end.genesis == c.genesis
      && (forall h | h in c.blocks :: h in end.blocks && end.blocks[h] == c.blocks[h])
      && Descends(end.blocks, end.genesis, c.finalized, end.finalized)
      && Descends(end.blocks, end.genesis, c.finalized, end.best)
    decreases |steps|
  {
    var end := Run(c, steps);
    if steps != [] {
      var next := Apply(c, steps[0]);
      ApplyGrows(c, steps[0]);
      FinalityStays(next, steps[1..]);
      GrownDescends(next, end, c.finalized, next.finalized);
      DescendsTrans(end.blocks, end.genesis, c.finalized, next.finalized, end.finalized);
    }
    DescendsTrans(end.blocks, end.genesis, c.finalized, end.finalized, end.best);
  }

  // ---- Totals ---------------------------------------------------------------------------------

  /** The difficulties on the path from genesis to a block. */
  ghost function PathSum(c: Chain, h: Hash): nat
    requires Structure(c) && h in c.blocks
    decreases c.blocks[h].number
  {
    if h == c.genesis then 0 else assert Linked(c.blocks, c.blocks[h]); PathSum(c, c.blocks[h].parent) + c.blocks[h].difficulty
  }

  /** A stored total is the whole path, up to saturation. */
  lemma {:induction false} TotalIsPathSum(c: Chain, h: Hash)
    requires Structure(c) && h in c.blocks
    ensures Total(c, h) == Min(U256_MAX, PathSum(c, h))
    decreases c.blocks[h].number
  {
    if h != c.genesis {
      assert Linked(c.blocks, c.blocks[h]);
      TotalIsPathSum(c, c.blocks[h].parent);
      assert Added(c, h);
    }
  }
}
