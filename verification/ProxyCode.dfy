/** The assembler of runtime/src/balances_erc20.rs: it appends code, leaves jump targets open
    and fills them in once they are known. `Layout` is the code written down directly. */
module ProxyCode {
  import opened Bytes
  import opened Evm

  type Selector = s: seq<Byte> | |s| == 4 witness [0, 0, 0, 0]

  const SLOT := 0x0802

  function SlotAddress(at: nat): (address: seq<Byte>)
    requires at <= 18
    ensures |address| == 20
  {
    Zeros(20)[at := High(SLOT)][at + 1 := Low(SLOT)]
  }

  function High(target: nat): Byte {
    target / 256 % 256
  }

  function Low(target: nat): Byte {
    target % 256
  }

  // ---- The layout ---------------------------------------------------------------------------

  function Prologue(deposit: nat): (code: seq<Byte>)
    ensures |code| == 14
  {
    [PUSH1, 4, CALLDATASIZE, LT, PUSH2, High(deposit), Low(deposit), JUMPI,
     PUSH1, 0, CALLDATALOAD, PUSH1, 0xe0, SHR]
  }

  function Compare(s: Selector, forward: nat): (code: seq<Byte>)
    ensures |code| == 11
  {
    [DUP1, PUSH4, s[0], s[1], s[2], s[3], EQ, PUSH2, High(forward), Low(forward), JUMPI]
  }

  function CompareAll(selectors: seq<Selector>, forward: nat): (code: seq<Byte>)
    ensures |code| == 11 * |selectors|
  {
    if selectors == [] then [] else Compare(selectors[0], forward) + CompareAll(selectors[1..], forward)
  }

  function DepositBlock(s: Selector, call: nat): (code: seq<Byte>)
    ensures |code| == 18
  {
    [JUMPDEST, PUSH4, s[0], s[1], s[2], s[3], PUSH1, 0xe0, SHL, PUSH1, 0, MSTORE, PUSH1, 4,
     PUSH2, High(call), Low(call), JUMP]
  }

  function ForwardBlock(): (code: seq<Byte>)
    ensures |code| == 8
  {
    [JUMPDEST, CALLDATASIZE, PUSH1, 0, PUSH1, 0, CALLDATACOPY, CALLDATASIZE]
  }

  function CallBlock(a: Selector, return_: nat): (code: seq<Byte>)
    ensures |code| == 29
  {
    [JUMPDEST, PUSH1, 0, PUSH1, 0, DUP3, PUSH1, 0, PUSH4, a[0], a[1], a[2], a[3], GAS, DELEGATECALL,
     RETURNDATASIZE, PUSH1, 0, PUSH1, 0, RETURNDATACOPY, PUSH2, High(return_), Low(return_), JUMPI,
     RETURNDATASIZE, PUSH1, 0, REVERT]
  }

  function ReturnBlock(): (code: seq<Byte>)
    ensures |code| == 5
  {
    [JUMPDEST, RETURNDATASIZE, PUSH1, 0, RETURN]
  }

  function DepositAt(n: nat): nat { 14 + 11 * n }
  function ForwardAt(n: nat): nat { DepositAt(n) + 18 }
  function CallAt(n: nat): nat { DepositAt(n) + 26 }
  function ReturnAt(n: nat): nat { DepositAt(n) + 55 }

  /** Every jump target fits the two bytes of a PUSH2. */
  predicate TargetsFit(selectors: seq<Selector>) {
    ReturnAt(|selectors|) < 0x1_0000
  }

  /** The last four bytes of the address the precompile is mounted at. */
  function PrecompileTail(): Selector {
    SlotAddress(16)[16..]
  }

  function Layout(selectors: seq<Selector>, deposit: Selector): seq<Byte> {
    var n := |selectors|;
    Prologue(DepositAt(n)) + CompareAll(selectors, ForwardAt(n)) + DepositBlock(deposit, CallAt(n))
      + ForwardBlock() + CallBlock(PrecompileTail(), ReturnAt(n)) + ReturnBlock()
  }

  /** The blocks as the bytes an EVM reads. */
  lemma BlocksInBytes(s: Selector, target: nat)
    ensures Prologue(target)
         == [0x60, 4, 0x36, 0x10, 0x61, High(target), Low(target), 0x57, 0x60, 0, 0x35, 0x60, 0xe0, 0x1c]
    ensures Compare(s, target)
         == [0x80, 0x63, s[0], s[1], s[2], s[3], 0x14, 0x61, High(target), Low(target), 0x57]
    ensures DepositBlock(s, target)
         == [0x5b, 0x63, s[0], s[1], s[2], s[3], 0x60, 0xe0, 0x1b, 0x60, 0, 0x52, 0x60, 4,
             0x61, High(target), Low(target), 0x56]
    ensures ForwardBlock() == [0x5b, 0x36, 0x60, 0, 0x60, 0, 0x37, 0x36]
    ensures CallBlock(s, target)
         == [0x5b, 0x60, 0, 0x60, 0, 0x82, 0x60, 0, 0x63, s[0], s[1], s[2], s[3], 0x5a, 0xf4,
             0x3d, 0x60, 0, 0x60, 0, 0x3e, 0x61, High(target), Low(target), 0x57, 0x3d, 0x60, 0, 0xfd]
    ensures ReturnBlock() == [0x5b, 0x3d, 0x60, 0, 0xf3]
  {
  }

  // ---- Patching -----------------------------------------------------------------------------

  function Patch(code: seq<Byte>, at: nat, target: nat): (patched: seq<Byte>)
    requires at + 1 < |code|
    ensures |patched| == |code|
  {
    code[at := High(target)][at + 1 := Low(target)]
  }

  ghost predicate InRange(code: seq<Byte>, jumps: seq<nat>) {
    forall i | 0 <= i < |jumps| :: jumps[i] + 1 < |code|
  }

  function PatchAll(code: seq<Byte>, jumps: seq<nat>, target: nat): (patched: seq<Byte>)
    requires InRange(code, jumps)
    ensures |patched| == |code|
    decreases |jumps|
  {
    if jumps == [] then code else PatchAll(Patch(code, jumps[0], target), jumps[1..], target)
  }

  /** No open slot overlaps another. */
  ghost predicate SlotsApart(jumps: seq<nat>) {
    forall a, b | a in jumps && b in jumps :: b != a + 1
  }

  ghost predicate InSlot(jumps: seq<nat>, i: nat) {
    i in jumps || (i > 0 && i - 1 in jumps)
  }

  /** The target a slot holds. */
  function TargetAt(code: seq<Byte>, at: nat): int
    requires at + 1 < |code|
  {
    var high: int, low: int := code[at], code[at + 1];
    256 * high + low
  }

  lemma PatchedOnce(code: seq<Byte>, at: nat, target: nat)
    requires at + 1 < |code| && target < 0x1_0000
    ensures TargetAt(Patch(code, at, target), at) == target
    ensures forall i | 0 <= i < |code| && i != at && i != at + 1 :: Patch(code, at, target)[i] == code[i]
  {
  }

  lemma KeptTarget(before: seq<Byte>, after: seq<Byte>, at: nat)
    requires at + 1 < |before| == |after|
    ensures before[at] == after[at] && before[at + 1] == after[at + 1] ==> TargetAt(before, at) == TargetAt(after, at)
  {
  }

  /** Every patched slot holds the target, and no byte outside the slots changes. */
  lemma {:induction false} PatchedReadsBack(code: seq<Byte>, jumps: seq<nat>, target: nat)
    requires InRange(code, jumps) && SlotsApart(jumps) && target < 0x1_0000
    ensures
      var patched := PatchAll(code, jumps, target);
      && (forall at | at in jumps :: at + 1 < |code| && TargetAt(patched, at) == target)
      && (forall i | 0 <= i < |code| && !InSlot(jumps, i) :: patched[i] == code[i])
    decreases |jumps|
  {
    if jumps != [] {
      var at, rest := jumps[0], jumps[1..];
      assert at in jumps && forall i | i in rest :: i in jumps;
      var once := Patch(code, at, target);
      PatchedOnce(code, at, target);
      hide Patch, TargetAt;
      PatchedReadsBack(once, rest, target);
      KeptTarget(once, PatchAll(once, rest, target), at);
      assert at !in rest ==> !InSlot(rest, at) && !InSlot(rest, at + 1);
      assert forall i | i in jumps :: i == at || i in rest;
      assert forall i: nat | !InSlot(jumps, i) :: !InSlot(rest, i) && i != at && i != at + 1;
    }
  }

  class Assembler {
    var code: seq<Byte>

    constructor (code: seq<Byte>)
      ensures this.code == code
    {
      this.code := code;
    }

    method Extend(bytes: seq<Byte>)
      modifies this
      ensures code == old(code) + bytes
    {
      code := code + bytes;
    }

    /** A jump whose two target bytes are still open; their place is returned. */
    method Jump(kind: Byte) returns (at: nat)
      modifies this
      ensures code == old(code) + [PUSH2, 0, 0, kind] && at == |code| - 3
    {
      code := code + [PUSH2, 0, 0, kind];
      at := |code| - 3;
    }

    /** The next instruction becomes the target of all the open `jumps`. */
    method Land(jumps: seq<nat>)
      requires InRange(code, jumps)
      modifies this
      ensures code == PatchAll(old(code), jumps, |old(code)| % 0x1_0000) + [JUMPDEST]
    {
      var target := |code| % 0x1_0000;
      var i := 0;
      while i < |jumps|
        invariant 0 <= i <= |jumps| && |code| == |old(code)|
        invariant InRange(code, jumps[i..])
        invariant PatchAll(code, jumps[i..], target) == PatchAll(old(code), jumps, target)
      {
        assert jumps[i..][1..] == jumps[i + 1..];
        code := code[jumps[i] := High(target)][jumps[i] + 1 := Low(target)];
        i := i + 1;
      }
      code := code + [JUMPDEST];
    }
  }

  lemma {:induction false} CompareAllSnoc(selectors: seq<Selector>, s: Selector, forward: nat)
    ensures CompareAll(selectors + [s], forward) == CompareAll(selectors, forward) + Compare(s, forward)
  {
    if selectors == [] {
      assert selectors + [s] == [s];
      assert CompareAll([s], forward) == Compare(s, forward) + CompareAll([], forward);
    } else {
      assert (selectors + [s])[1..] == selectors[1..] + [s];
      CompareAllSnoc(selectors[1..], s, forward);
    }
  }

  /** Where the comparisons that start at `from` leave their targets open. */
  function Holes(from: nat, n: nat): (holes: seq<nat>)
    ensures |holes| == n
    decreases n
  {
    if n == 0 then [] else [from + 8] + Holes(from + 11, n - 1)
  }

  lemma {:induction false} HolesSnoc(from: nat, n: nat)
    ensures Holes(from, n + 1) == Holes(from, n) + [from + 11 * n + 8]
    decreases n
  {
    if n > 0 {
      HolesSnoc(from + 11, n - 1);
    }
  }

  lemma {:induction false} HolesInRange(from: nat, n: nat, code: seq<Byte>)
    requires from + 11 * n <= |code|
    ensures InRange(code, Holes(from, n))
    decreases n
  {
    if n > 0 {
      HolesInRange(from + 11, n - 1, code);
    }
  }

  lemma PatchOne(before: seq<Byte>, s: Selector, after: seq<Byte>, forward: nat)
    ensures Patch(before + Compare(s, 0) + after, |before| + 8, forward) == before + Compare(s, forward) + after
  {
  }

  lemma Regroup(before: seq<Byte>, selectors: seq<Selector>, after: seq<Byte>, forward: nat)
    requires selectors != []
    ensures before + CompareAll(selectors, forward) + after
         == before + Compare(selectors[0], forward) + (CompareAll(selectors[1..], forward) + after)
         == (before + Compare(selectors[0], forward)) + CompareAll(selectors[1..], forward) + after
  {
  }

  lemma PatchFirst(before: seq<Byte>, selectors: seq<Selector>, after: seq<Byte>, forward: nat)
    requires selectors != []
    ensures Patch(before + CompareAll(selectors, 0) + after, |before| + 8, forward)
         == (before + Compare(selectors[0], forward)) + CompareAll(selectors[1..], 0) + after
  {
    var tail := CompareAll(selectors[1..], 0) + after;
    Regroup(before, selectors, after, 0);
    PatchOne(before, selectors[0], tail, forward);
    assert before + Compare(selectors[0], forward) + tail
        == (before + Compare(selectors[0], forward)) + CompareAll(selectors[1..], 0) + after;
  }

  /** Patching all the holes of a run of comparisons gives the patched run. */
  lemma {:induction false} PatchCompareAll(before: seq<Byte>, selectors: seq<Selector>, after: seq<Byte>, forward: nat)
    requires InRange(before + CompareAll(selectors, 0) + after, Holes(|before|, |selectors|))
    ensures PatchAll(before + CompareAll(selectors, 0) + after, Holes(|before|, |selectors|), forward)
         == before + CompareAll(selectors, forward) + after
    decreases |selectors|
  {
    if selectors != [] {
      var before', rest := before + Compare(selectors[0], forward), selectors[1..];
      PatchFirst(before, selectors, after, forward);
      HolesInRange(|before'|, |rest|, before' + CompareAll(rest, 0) + after);
      PatchCompareAll(before', rest, after, forward);
      assert Holes(|before|, |selectors|)[1..] == Holes(|before'|, |rest|);
      Regroup(before, selectors, after, forward);
    }
  }

  lemma PatchSingle(code: seq<Byte>, at: nat, target: nat)
    requires at + 1 < |code|
    ensures PatchAll(code, [at], target) == Patch(code, at, target)
  {
    assert PatchAll(Patch(code, at, target), [at][1..], target) == Patch(code, at, target);
  }

  // What the pieces appended one after the other make up.

  lemma CompareAssembled(head: seq<Byte>, s: Selector)
    ensures head + [DUP1, PUSH4] + s + [EQ] + [PUSH2, 0, 0, JUMPI] == head + Compare(s, 0)
  {
  }

  lemma DepositAssembled(head: seq<Byte>, s: Selector)
    ensures head + [JUMPDEST] + [PUSH4] + s + [PUSH1, 0xe0, SHL, PUSH1, 0, MSTORE, PUSH1, 4] + [PUSH2, 0, 0, JUMP]
         == head + DepositBlock(s, 0)
  {
  }

  lemma ForwardAssembled(head: seq<Byte>)
    ensures head + [JUMPDEST] + [CALLDATASIZE, PUSH1, 0, PUSH1, 0, CALLDATACOPY, CALLDATASIZE] == head + ForwardBlock()
  {
  }

  lemma CallAssembled(head: seq<Byte>, a: Selector)
    ensures head + [JUMPDEST] + [PUSH1, 0, PUSH1, 0, DUP3, PUSH1, 0, PUSH4] + a
              + [GAS, DELEGATECALL, RETURNDATASIZE, PUSH1, 0, PUSH1, 0, RETURNDATACOPY]
              + [PUSH2, 0, 0, JUMPI] + [RETURNDATASIZE, PUSH1, 0, REVERT]
         == head + CallBlock(a, 0)
  {
  }

  lemma ReturnAssembled(head: seq<Byte>)
    ensures head + [JUMPDEST] + [RETURNDATASIZE, PUSH1, 0, RETURN] == head + ReturnBlock()
  {
  }

  lemma PatchPrologue(after: seq<Byte>, deposit: nat)
    ensures Patch(Prologue(0) + after, 5, deposit) == Prologue(deposit) + after
  {
  }

  lemma PatchDeposit(before: seq<Byte>, s: Selector, after: seq<Byte>, call: nat)
    ensures Patch(before + DepositBlock(s, 0) + after, |before| + 15, call) == before + DepositBlock(s, call) + after
  {
  }

  lemma PatchCall(before: seq<Byte>, a: Selector, return_: nat)
    ensures Patch(before + CallBlock(a, 0), |before| + 22, return_) == before + CallBlock(a, return_)
  {
  }

  /** The comparisons, with the targets they leave open. */
  method EmitComparisons(asm: Assembler, selectors: seq<Selector>) returns (toForward: seq<nat>)
    modifies asm
    ensures asm.code == old(asm.code) + CompareAll(selectors, 0)
    ensures toForward == Holes(|old(asm.code)|, |selectors|)
  {
    ghost var start := asm.code;
    toForward := [];
    for i := 0 to |selectors|
      invariant toForward == Holes(|start|, i)
      invariant asm.code == start + CompareAll(selectors[..i], 0)
    {
      var s := selectors[i];
      ghost var head := asm.code;
      asm.Extend([DUP1, PUSH4]);
      asm.Extend(s);
      asm.Extend([EQ]);
      var at := asm.Jump(JUMPI);
      CompareAssembled(head, s);
      assert selectors[..i + 1] == selectors[..i] + [s];
      CompareAllSnoc(selectors[..i], s, 0);
      HolesSnoc(|start|, i);
      toForward := toForward + [at];
    }
    assert selectors[..|selectors|] == selectors;
  }

  /** `proxy_code`, for any list of selectors: back-patching arrives at the layout. */
  method ProxyCode(selectors: seq<Selector>, deposit: Selector) returns (code: seq<Byte>)
    requires TargetsFit(selectors)
    ensures code == Layout(selectors, deposit)
  {
    var asm, toDeposit := EmitPrologue();
    var toForward := EmitComparisons(asm, selectors);
    PlaceDeposit(asm, selectors, toDeposit);
    var toCall := EmitDeposit(asm, deposit, Prologue(DepositAt(|selectors|)) + CompareAll(selectors, 0));
    PlaceForward(asm, selectors, deposit, toForward);
    PlaceCall(asm, selectors, deposit, toCall);
    var toReturn := EmitCall(asm, Body(selectors, deposit));
    PlaceReturn(asm, Body(selectors, deposit), toReturn);
    code := asm.code;
  }

  method EmitPrologue() returns (asm: Assembler, toDeposit: nat)
    ensures fresh(asm) && asm.code == Prologue(0) && toDeposit == 5
  {
    asm := new Assembler([PUSH1, 4, CALLDATASIZE, LT]);
    toDeposit := asm.Jump(JUMPI);
    asm.Extend([PUSH1, 0, CALLDATALOAD, PUSH1, 0xe0, SHR]);
  }

  method PlaceDeposit(asm: Assembler, selectors: seq<Selector>, toDeposit: nat)
    requires TargetsFit(selectors)
    requires asm.code == Prologue(0) + CompareAll(selectors, 0) && toDeposit == 5
    modifies asm
    ensures asm.code == Prologue(DepositAt(|selectors|)) + CompareAll(selectors, 0) + [JUMPDEST]
  {
    PatchSingle(asm.code, toDeposit, DepositAt(|selectors|));
    PatchPrologue(CompareAll(selectors, 0), DepositAt(|selectors|));
    asm.Land([toDeposit]);
  }

  method EmitDeposit(asm: Assembler, deposit: Selector, ghost head: seq<Byte>) returns (toCall: nat)
    requires asm.code == head + [JUMPDEST]
    modifies asm
    ensures asm.code == head + DepositBlock(deposit, 0)
    ensures toCall == |head| + 15
  {
    asm.Extend([PUSH4]);
    asm.Extend(deposit);
    asm.Extend([PUSH1, 0xe0, SHL, PUSH1, 0, MSTORE, PUSH1, 4]);
    toCall := asm.Jump(JUMP);
    DepositAssembled(head, deposit);
  }

  method PlaceForward(asm: Assembler, selectors: seq<Selector>, deposit: Selector, toForward: seq<nat>)
    requires TargetsFit(selectors)
    requires asm.code == Prologue(DepositAt(|selectors|)) + CompareAll(selectors, 0) + DepositBlock(deposit, 0)
    requires toForward == Holes(14, |selectors|)
    modifies asm
    ensures asm.code == Head(selectors) + DepositBlock(deposit, 0) + ForwardBlock()
  {
    var n := |selectors|;
    assert |asm.code| == ForwardAt(n);
    HolesInRange(14, n, asm.code);
    PatchCompareAll(Prologue(DepositAt(n)), selectors, DepositBlock(deposit, 0), ForwardAt(n));
    asm.Land(toForward);
    assert asm.code == Head(selectors) + DepositBlock(deposit, 0) + [JUMPDEST];
    ForwardAssembled(Head(selectors) + DepositBlock(deposit, 0));
    asm.Extend([CALLDATASIZE, PUSH1, 0, PUSH1, 0, CALLDATACOPY, CALLDATASIZE]);
  }

  ghost function Head(selectors: seq<Selector>): (head: seq<Byte>)
    ensures |head| == DepositAt(|selectors|)
  {
    Prologue(DepositAt(|selectors|)) + CompareAll(selectors, ForwardAt(|selectors|))
  }

  method PlaceCall(asm: Assembler, selectors: seq<Selector>, deposit: Selector, toCall: nat)
    requires TargetsFit(selectors)
    requires asm.code == Head(selectors) + DepositBlock(deposit, 0) + ForwardBlock()
    requires toCall == DepositAt(|selectors|) + 15
    modifies asm
    ensures asm.code == Body(selectors, deposit) + [JUMPDEST]
  {
    var target := CallAt(|selectors|);
    assert |asm.code| == target && target % 0x1_0000 == target;
    assert Body(selectors, deposit) == Head(selectors) + DepositBlock(deposit, target) + ForwardBlock();
    hide Head, Body, DepositBlock, ForwardBlock, Patch, PatchAll, CallAt, DepositAt, TargetsFit;
    PatchSingle(asm.code, toCall, target);
    PatchDeposit(Head(selectors), deposit, ForwardBlock(), target);
    asm.Land([toCall]);
  }

  ghost function Body(selectors: seq<Selector>, deposit: Selector): (body: seq<Byte>)
    ensures |body| == CallAt(|selectors|)
  {
    Head(selectors) + DepositBlock(deposit, CallAt(|selectors|)) + ForwardBlock()
  }

  method EmitCall(asm: Assembler, ghost body: seq<Byte>) returns (toReturn: nat)
    requires asm.code == body + [JUMPDEST]
    modifies asm
    ensures asm.code == body + CallBlock(PrecompileTail(), 0)
    ensures toReturn == |body| + 22
  {
    asm.Extend([PUSH1, 0, PUSH1, 0, DUP3, PUSH1, 0, PUSH4]);
    asm.Extend(SlotAddress(16)[16..]);
    asm.Extend([GAS, DELEGATECALL, RETURNDATASIZE, PUSH1, 0, PUSH1, 0, RETURNDATACOPY]);
    toReturn := asm.Jump(JUMPI);
    asm.Extend([RETURNDATASIZE, PUSH1, 0, REVERT]);
    CallAssembled(body, PrecompileTail());
  }

  method PlaceReturn(asm: Assembler, ghost body: seq<Byte>, toReturn: nat)
    requires asm.code == body + CallBlock(PrecompileTail(), 0)
    requires toReturn == |body| + 22 && |body| + 29 < 0x1_0000
    modifies asm
    ensures asm.code == body + CallBlock(PrecompileTail(), |body| + 29) + ReturnBlock()
  {
    PatchSingle(asm.code, toReturn, |body| + 29);
    PatchCall(body, PrecompileTail(), |body| + 29);
    asm.Land([toReturn]);
    ReturnAssembled(body + CallBlock(PrecompileTail(), |body| + 29));
    asm.Extend([RETURNDATASIZE, PUSH1, 0, RETURN]);
  }
}
