/** Block trees, ancestry, and the ancestor walk of consensus/sc-consensus-pow/src/lib.rs. */
module BlockTree {

  type Hash = nat

  datatype Block = Block(parent: Hash, number: nat, difficulty: nat)

  /** A block's parent is known, one number below it. */
  predicate Linked(blocks: map<Hash, Block>, block: Block) {
    block.parent in blocks && block.number == blocks[block.parent].number + 1
  }

  /** A tree rooted at `genesis`: every other block is linked to its parent. */
  ghost predicate Tree(blocks: map<Hash, Block>, genesis: Hash) {
    && genesis in blocks && blocks[genesis].number == 0
    && (forall h {:trigger Linked(blocks, blocks[h])} | h in blocks && h != genesis :: Linked(blocks, blocks[h]))
  }

  /** `b` is `a` or one of its descendants. */
  ghost predicate Descends(blocks: map<Hash, Block>, genesis: Hash, a: Hash, b: Hash)
    requires Tree(blocks, genesis) && b in blocks
    decreases blocks[b].number
  {
    a == b || (b != genesis && Linked(blocks, blocks[b]) && Descends(blocks, genesis, a, blocks[b].parent))
  }

  lemma {:induction false} DescendsTrans(blocks: map<Hash, Block>, genesis: Hash, a: Hash, b: Hash, c: Hash)
    requires Tree(blocks, genesis) && b in blocks && c in blocks
    requires Descends(blocks, genesis, a, b) && Descends(blocks, genesis, b, c)
    ensures Descends(blocks, genesis, a, c)
    decreases blocks[c].number
  {
    if b != c {
      DescendsTrans(blocks, genesis, a, b, blocks[c].parent);
    }
  }

  lemma {:induction false} DescendsNumber(blocks: map<Hash, Block>, genesis: Hash, a: Hash, b: Hash)
    requires Tree(blocks, genesis) && b in blocks && Descends(blocks, genesis, a, b)
    ensures a in blocks && blocks[a].number <= blocks[b].number
    ensures blocks[a].number == blocks[b].number ==> a == b
    decreases blocks[b].number
  {
    if a != b {
      DescendsNumber(blocks, genesis, a, blocks[b].parent);
    }
  }

  /** Two blocks above the same block are in line or on different branches of it; below the same
      block they are always in line. */
  lemma {:induction false} AncestorsInLine(blocks: map<Hash, Block>, genesis: Hash, a: Hash, b: Hash, c: Hash)
    requires Tree(blocks, genesis) && c in blocks
    requires Descends(blocks, genesis, a, c) && Descends(blocks, genesis, b, c)
    ensures b in blocks && a in blocks
    ensures Descends(blocks, genesis, a, b) || Descends(blocks, genesis, b, a)
    decreases blocks[c].number
  {
    DescendsNumber(blocks, genesis, a, c);
    DescendsNumber(blocks, genesis, b, c);
    if a != c && b != c {
      AncestorsInLine(blocks, genesis, a, b, blocks[c].parent);
    }
  }

  // ---- Adding a block -----------------------------------------------------------------------

  /** The tree with one more block, or the same one if it is known. */
  lemma AddKeepsTree(blocks: map<Hash, Block>, genesis: Hash, hash: Hash, block: Block)
    requires Tree(blocks, genesis)
    requires hash in blocks ==> blocks[hash] == block
    requires hash !in blocks ==> Linked(blocks, block)
    ensures Tree(blocks[hash := block], genesis)
  {
    var blocks' := blocks[hash := block];
    forall h | h in blocks' && h != genesis
      ensures Linked(blocks', blocks'[h])
    {
      assert h in blocks ==> Linked(blocks, blocks[h]);
    }
  }

  /** Ancestry among the known blocks does not change. */
  lemma {:induction false} AddKeepsDescends(blocks: map<Hash, Block>, genesis: Hash, hash: Hash, block: Block,
                                            a: Hash, b: Hash)
    requires Tree(blocks, genesis) && b in blocks
    requires hash in blocks ==> blocks[hash] == block
    requires Tree(blocks[hash := block], genesis)
    ensures Descends(blocks[hash := block], genesis, a, b) <==> Descends(blocks, genesis, a, b)
    decreases blocks[b].number
  {
    if b != genesis {
      assert Linked(blocks, blocks[b]);
      AddKeepsDescends(blocks, genesis, hash, block, a, blocks[b].parent);
    }
  }

  // ---- The walk -----------------------------------------------------------------------------

  /** Outcome of a look-up that needs a header the client does not have. */
  datatype Outcome<T> = Ok(value: T) | MissingHeader(hash: Hash)

  /** The block reached by following parents from `hash` at `from` down to `to`. */
  function WalkBack(blocks: map<Hash, Block>, hash: Hash, from: nat, to: nat): Outcome<Hash>
    requires to <= from
    decreases from
  {
    if from == to then Ok(hash)
    else if hash !in blocks then MissingHeader(hash)
    else WalkBack(blocks, blocks[hash].parent, from - 1, to)
  }

  /** In a tree the walk finds the one ancestor with the wanted number. */
  lemma {:induction false} WalkFindsAncestor(blocks: map<Hash, Block>, genesis: Hash, hash: Hash, to: nat)
    requires Tree(blocks, genesis) && hash in blocks && to <= blocks[hash].number
    ensures
      var w := WalkBack(blocks, hash, blocks[hash].number, to);
      && w.Ok? && w.value in blocks && blocks[w.value].number == to
      && Descends(blocks, genesis, w.value, hash)
    decreases blocks[hash].number
  {
    if to < blocks[hash].number {
      assert Linked(blocks, blocks[hash]);
      WalkFindsAncestor(blocks, genesis, blocks[hash].parent, to);
    }
  }

  lemma AncestorIsWalked(blocks: map<Hash, Block>, genesis: Hash, a: Hash, hash: Hash)
    requires Tree(blocks, genesis) && hash in blocks && a in blocks && blocks[a].number <= blocks[hash].number
    ensures Descends(blocks, genesis, a, hash)
       <==> WalkBack(blocks, hash, blocks[hash].number, blocks[a].number) == Ok(a)
  {
    WalkFindsAncestor(blocks, genesis, hash, blocks[a].number);
    var w := WalkBack(blocks, hash, blocks[hash].number, blocks[a].number).value;
    if Descends(blocks, genesis, a, hash) {
      AncestorsInLine(blocks, genesis, a, w, hash);
      if Descends(blocks, genesis, a, w) {
        DescendsNumber(blocks, genesis, a, w);
      } else {
        DescendsNumber(blocks, genesis, w, a);
      }
    }
  }

  function Conflicts(newHash: Hash, newNumber: nat, parent: Hash, finalized: Hash, finalizedNumber: nat,
                     blocks: map<Hash, Block>): Outcome<bool>
  {
    if newNumber <= finalizedNumber then
      match WalkBack(blocks, finalized, finalizedNumber, newNumber)
      case Ok(h) => Ok(h != newHash)
      case MissingHeader(h) => MissingHeader(h)
    else
      match WalkBack(blocks, parent, newNumber - 1, finalizedNumber)
      case Ok(h) => Ok(h != finalized)
      case MissingHeader(h) => MissingHeader(h)
  }

  /** `finality_conflicts`: the walk goes down from the finalized block or from the candidate's
      parent, whichever is higher, and fails on a header the client does not have. */
  method FinalityConflicts(newHash: Hash, newNumber: nat, parent: Hash, finalized: Hash, finalizedNumber: nat,
                           blocks: map<Hash, Block>) returns (conflicts: Outcome<bool>)
    ensures conflicts == Conflicts(newHash, newNumber, parent, finalized, finalizedNumber, blocks)
  {
    if newNumber <= finalizedNumber {
      var hash, number := finalized, finalizedNumber;
      while number > newNumber
        invariant newNumber <= number
        invariant WalkBack(blocks, hash, number, newNumber) == WalkBack(blocks, finalized, finalizedNumber, newNumber)
      {
        if hash !in blocks {
          return MissingHeader(hash);
        }
        hash := blocks[hash].parent;
        number := number - 1;
      }
      return Ok(hash != newHash);
    }
    var hash, number := parent, newNumber - 1;
    while number > finalizedNumber
      invariant finalizedNumber <= number
      invariant WalkBack(blocks, hash, number, finalizedNumber) == WalkBack(blocks, parent, newNumber - 1, finalizedNumber)
    {
      if hash !in blocks {
        return MissingHeader(hash);
      }
      hash := blocks[hash].parent;
      number := number - 1;
    }
    return Ok(hash != finalized);
  }

  /** In line with the finalized block: at, above or below it. */
  ghost predicate Compatible(blocks: map<Hash, Block>, genesis: Hash, finalized: Hash, hash: Hash)
    requires Tree(blocks, genesis) && finalized in blocks && hash in blocks
  {
    Descends(blocks, genesis, hash, finalized) || Descends(blocks, genesis, finalized, hash)
  }

  /** The check is exact: a block that fits the tree, known or new, conflicts precisely when it is
      neither an ancestor nor a descendant of the finalized block, nor that block itself. */
  lemma ConflictsIsExact(blocks: map<Hash, Block>, genesis: Hash, hash: Hash, block: Block, finalized: Hash)
    requires Tree(blocks, genesis) && finalized in blocks
    requires hash in blocks ==> blocks[hash] == block
    requires Linked(blocks, block)
    ensures
      && Tree(blocks[hash := block], genesis)
      && Conflicts(hash, block.number, block.parent, finalized, blocks[finalized].number, blocks)
         == Ok(!Compatible(blocks[hash := block], genesis, finalized, hash))
  {
    AddKeepsTree(blocks, genesis, hash, block);
    if block.number <= blocks[finalized].number {
      BelowFinalized(blocks, genesis, hash, block, finalized);
    } else {
      AboveFinalized(blocks, genesis, hash, block, finalized);
    }
  }

  lemma AboveFinalized(blocks: map<Hash, Block>, genesis: Hash, hash: Hash, block: Block, finalized: Hash)
    requires Tree(blocks, genesis) && finalized in blocks && Tree(blocks[hash := block], genesis)
    requires hash in blocks ==> blocks[hash] == block
    requires hash != genesis && Linked(blocks, block)
    requires block.number > blocks[finalized].number
    ensures WalkBack(blocks, block.parent, block.number - 1, blocks[finalized].number) == Ok(finalized)
       <==> Compatible(blocks[hash := block], genesis, finalized, hash)
    ensures WalkBack(blocks, block.parent, block.number - 1, blocks[finalized].number).Ok?
  {
    var blocks' := blocks[hash := block];
    AncestorIsWalked(blocks, genesis, finalized, block.parent);
    WalkFindsAncestor(blocks, genesis, block.parent, blocks[finalized].number);
    AddKeepsDescends(blocks, genesis, hash, block, finalized, block.parent);
    AddKeepsDescends(blocks, genesis, hash, block, hash, finalized);
    if Descends(blocks', genesis, hash, finalized) {
      DescendsNumber(blocks', genesis, hash, finalized);
    }
  }

  lemma BelowFinalized(blocks: map<Hash, Block>, genesis: Hash, hash: Hash, block: Block, finalized: Hash)
    requires Tree(blocks, genesis) && finalized in blocks && Tree(blocks[hash := block], genesis)
    requires hash in blocks ==> blocks[hash] == block
    requires block.number <= blocks[finalized].number
    ensures WalkBack(blocks, finalized, blocks[finalized].number, block.number) == Ok(hash)
       <==> Compatible(blocks[hash := block], genesis, finalized, hash)
    ensures WalkBack(blocks, finalized, blocks[finalized].number, block.number).Ok?
  {
    var blocks' := blocks[hash := block];
    WalkFindsAncestor(blocks, genesis, finalized, block.number);
    AddKeepsDescends(blocks, genesis, hash, block, hash, finalized);
    if hash in blocks {
      AncestorIsWalked(blocks, genesis, hash, finalized);
    } else if Descends(blocks, genesis, hash, finalized) {
      DescendsNumber(blocks, genesis, hash, finalized);
    }
    if Descends(blocks', genesis, finalized, hash) {
      DescendsNumber(blocks', genesis, finalized, hash);
    }
  }
}
