/** The token proxy meets its specification, for every list of selectors whose code fits 16-bit
    jump targets. */
module ProxySpec {
  import opened Bytes
  import opened Evm
  import opened ProxyCode
  import opened ProxyRun

  // ---- Where the blocks stand ---------------------------------------------------------------

  function Encoding(i: Instr): seq<Byte> {
    match i
    case Op(op) => [op]
    case PushData(data) => if 1 <= |data| <= 32 then [PUSH1 + |data| - 1] + data else []
  }

  function Assemble(p: Program): seq<Byte> {
    if p.Done? then [] else Encoding(p.first) + Assemble(p.rest)
  }

  /** `bytes` stand at `pc` of the code. */
  ghost predicate Stands(code: seq<Byte>, pc: nat, bytes: seq<Byte>) {
    pc + |bytes| <= |code| && code[pc..pc + |bytes|] == bytes
  }

  lemma {:induction false} AssembledIsPlaced(code: seq<Byte>, pc: nat, p: Program)
    requires WellFormed(p) && Stands(code, pc, Assemble(p))
    ensures Placed(code, pc, p) && |Assemble(p)| == Length(p)
    decreases p
  {
    if p.Seq? {
      var first := Encoding(p.first);
      assert Assemble(p) == first + Assemble(p.rest);
      StandsSplit(code, pc, first, Assemble(p.rest));
      if p.first.PushData? {
        assert code[pc..pc + |first|][1..] == p.first.data;
        assert code[pc] == code[pc..pc + |first|][0];
      } else {
        assert code[pc] == code[pc..pc + 1][0];
      }
      AssembledIsPlaced(code, pc + Size(p.first), p.rest);
    }
  }

  lemma {:induction false} StandsSplit(code: seq<Byte>, pc: nat, a: seq<Byte>, b: seq<Byte>)
    requires Stands(code, pc, a + b)
    ensures Stands(code, pc, a) && Stands(code, pc + |a|, b)
  {
    assert (a + b)[..|a|] == a && (a + b)[|a|..] == b;
    assert code[pc..pc + |a + b|][..|a|] == code[pc..pc + |a|];
    assert code[pc..pc + |a + b|][|a|..] == code[pc + |a|..pc + |a + b|];
  }

  lemma {:induction false} TestProgramBytes(deposit: nat)
    ensures Assemble(TestProgram(deposit)) == [PUSH1, 4, CALLDATASIZE, LT, PUSH2, High(deposit), Low(deposit), JUMPI]
  {
    var p0 := TestProgram(deposit);
    var p1 := p0.rest;
    var p2 := p1.rest;
    var p3 := p2.rest;
    var p4 := p3.rest;
    assert Assemble(p4) == [JUMPI];
    assert Assemble(p3) == [PUSH2, High(deposit), Low(deposit), JUMPI];
    assert Assemble(p2) == [LT, PUSH2, High(deposit), Low(deposit), JUMPI];
    assert Assemble(p1) == [CALLDATASIZE, LT, PUSH2, High(deposit), Low(deposit), JUMPI];
    assert Assemble(p0) == [PUSH1, 4, CALLDATASIZE, LT, PUSH2, High(deposit), Low(deposit), JUMPI];
  }

  lemma {:induction false} CompareProgramBytes(s: Selector, forward: nat)
    ensures Assemble(CompareProgram(s, forward)) == [DUP1, PUSH4, s[0], s[1], s[2], s[3], EQ, PUSH2, High(forward), Low(forward), JUMPI]
  {
    var p0 := CompareProgram(s, forward);
    var p1 := p0.rest;
    var p2 := p1.rest;
    var p3 := p2.rest;
    var p4 := p3.rest;
    assert Assemble(p4) == [JUMPI];
    assert Assemble(p3) == [PUSH2, High(forward), Low(forward), JUMPI];
    assert Assemble(p2) == [EQ, PUSH2, High(forward), Low(forward), JUMPI];
    assert Assemble(p1) == [PUSH4, s[0], s[1], s[2], s[3], EQ, PUSH2, High(forward), Low(forward), JUMPI];
    assert Assemble(p0) == [DUP1, PUSH4, s[0], s[1], s[2], s[3], EQ, PUSH2, High(forward), Low(forward), JUMPI];
  }

  lemma {:induction false} DepositProgramTail(s: Selector, call: nat)
    ensures Assemble(DepositProgram(s, call).rest.rest.rest.rest) == [PUSH1, 0, MSTORE, PUSH1, 4, PUSH2, High(call), Low(call), JUMP]
  {
    var p4 := DepositProgram(s, call).rest.rest.rest.rest;
    var p5 := p4.rest;
    var p6 := p5.rest;
    var p7 := p6.rest;
    var p8 := p7.rest;
    assert Assemble(p8) == [JUMP];
    assert Assemble(p7) == [PUSH2, High(call), Low(call), JUMP];
    assert Assemble(p6) == [PUSH1, 4, PUSH2, High(call), Low(call), JUMP];
    assert Assemble(p5) == [MSTORE, PUSH1, 4, PUSH2, High(call), Low(call), JUMP];
    assert Assemble(p4) == [PUSH1, 0, MSTORE, PUSH1, 4, PUSH2, High(call), Low(call), JUMP];
  }

  lemma {:induction false} DepositProgramMiddle(s: Selector, call: nat)
    ensures Assemble(DepositProgram(s, call).rest.rest) == [PUSH1, 0xe0, SHL, PUSH1, 0, MSTORE, PUSH1, 4, PUSH2, High(call), Low(call), JUMP]
  {
    var p2 := DepositProgram(s, call).rest.rest;
    var p3 := p2.rest;
    DepositProgramTail(s, call);
    assert Assemble(p3) == [SHL, PUSH1, 0, MSTORE, PUSH1, 4, PUSH2, High(call), Low(call), JUMP];
    assert Assemble(p2) == [PUSH1, 0xe0, SHL, PUSH1, 0, MSTORE, PUSH1, 4, PUSH2, High(call), Low(call), JUMP];
  }

  lemma {:induction false} DepositProgramBytes(s: Selector, call: nat)
    ensures Assemble(DepositProgram(s, call)) == [JUMPDEST, PUSH4, s[0], s[1], s[2], s[3], PUSH1, 0xe0, SHL, PUSH1, 0, MSTORE, PUSH1, 4, PUSH2, High(call), Low(call), JUMP]
  {
    var p0 := DepositProgram(s, call);
    var p1 := p0.rest;
    DepositProgramMiddle(s, call);
    assert Assemble(p1) == [PUSH4, s[0], s[1], s[2], s[3], PUSH1, 0xe0, SHL, PUSH1, 0, MSTORE, PUSH1, 4, PUSH2, High(call), Low(call), JUMP];
    assert Assemble(p0) == [JUMPDEST, PUSH4, s[0], s[1], s[2], s[3], PUSH1, 0xe0, SHL, PUSH1, 0, MSTORE, PUSH1, 4, PUSH2, High(call), Low(call), JUMP];
  }

  lemma {:induction false} CallProgramTail(a: Selector)
    ensures Assemble(CallProgram(a).rest.rest.rest.rest) == [PUSH1, 0, PUSH4, a[0], a[1], a[2], a[3], GAS, DELEGATECALL]
  {
    var p4 := CallProgram(a).rest.rest.rest.rest;
    var p5 := p4.rest;
    var p6 := p5.rest;
    var p7 := p6.rest;
    assert Assemble(p7) == [DELEGATECALL];
    assert Assemble(p6) == [GAS, DELEGATECALL];
    assert Assemble(p5) == [PUSH4, a[0], a[1], a[2], a[3], GAS, DELEGATECALL];
    assert Assemble(p4) == [PUSH1, 0, PUSH4, a[0], a[1], a[2], a[3], GAS, DELEGATECALL];
  }

  lemma {:induction false} CallProgramMiddle(a: Selector)
    ensures Assemble(CallProgram(a).rest.rest) == [PUSH1, 0, DUP3, PUSH1, 0, PUSH4, a[0], a[1], a[2], a[3], GAS, DELEGATECALL]
  {
    var p2 := CallProgram(a).rest.rest;
    var p3 := p2.rest;
    CallProgramTail(a);
    assert Assemble(p3) == [DUP3, PUSH1, 0, PUSH4, a[0], a[1], a[2], a[3], GAS, DELEGATECALL];
    assert Assemble(p2) == [PUSH1, 0, DUP3, PUSH1, 0, PUSH4, a[0], a[1], a[2], a[3], GAS, DELEGATECALL];
  }

  lemma {:induction false} CallProgramBytes(a: Selector)
    ensures Assemble(CallProgram(a)) == [JUMPDEST, PUSH1, 0, PUSH1, 0, DUP3, PUSH1, 0, PUSH4, a[0], a[1], a[2], a[3], GAS, DELEGATECALL]
  {
    var p0 := CallProgram(a);
    var p1 := p0.rest;
    CallProgramMiddle(a);
    assert Assemble(p1) == [PUSH1, 0, PUSH1, 0, DUP3, PUSH1, 0, PUSH4, a[0], a[1], a[2], a[3], GAS, DELEGATECALL];
    assert Assemble(p0) == [JUMPDEST, PUSH1, 0, PUSH1, 0, DUP3, PUSH1, 0, PUSH4, a[0], a[1], a[2], a[3], GAS, DELEGATECALL];
  }

  lemma {:induction false} AnswerProgramBytes(return_: nat)
    ensures Assemble(AnswerProgram(return_)) == [RETURNDATASIZE, PUSH1, 0, PUSH1, 0, RETURNDATACOPY, PUSH2, High(return_), Low(return_), JUMPI]
  {
    var p0 := AnswerProgram(return_);
    var p1 := p0.rest;
    var p2 := p1.rest;
    var p3 := p2.rest;
    var p4 := p3.rest;
    var p5 := p4.rest;
    assert Assemble(p5) == [JUMPI];
    assert Assemble(p4) == [PUSH2, High(return_), Low(return_), JUMPI];
    assert Assemble(p3) == [RETURNDATACOPY, PUSH2, High(return_), Low(return_), JUMPI];
    assert Assemble(p2) == [PUSH1, 0, RETURNDATACOPY, PUSH2, High(return_), Low(return_), JUMPI];
    assert Assemble(p1) == [PUSH1, 0, PUSH1, 0, RETURNDATACOPY, PUSH2, High(return_), Low(return_), JUMPI];
    assert Assemble(p0) == [RETURNDATASIZE, PUSH1, 0, PUSH1, 0, RETURNDATACOPY, PUSH2, High(return_), Low(return_), JUMPI];
  }

  lemma {:induction false} PrologueIs(deposit: nat)
    ensures Prologue(deposit) == Assemble(TestProgram(deposit)) + Assemble(LoadProgram())
  {
    TestProgramBytes(deposit);
  }

  lemma {:induction false} CompareIs(s: Selector, forward: nat)
    ensures Compare(s, forward) == Assemble(CompareProgram(s, forward))
  {
    CompareProgramBytes(s, forward);
  }

  lemma {:induction false} DepositIs(s: Selector, call: nat)
    ensures DepositBlock(s, call) == Assemble(DepositProgram(s, call))
  {
    DepositProgramBytes(s, call);
  }

  lemma {:induction false} ForwardIs()
    ensures ForwardBlock() == Assemble(ForwardProgram())
  {
  }

  lemma {:induction false} CallIs(a: Selector, return_: nat)
    ensures CallBlock(a, return_) == Assemble(CallProgram(a)) + Assemble(AnswerProgram(return_)) + Assemble(RevertProgram())
  {
    CallProgramBytes(a);
    AnswerProgramBytes(return_);
  }

  lemma {:induction false} ReturnIs()
    ensures ReturnBlock() == Assemble(ReturnProgram())
  {
  }

  // ---- The code as a whole --------------------------------------------------------------------

  /** Every block stands where its jumps point. */
  ghost predicate BlocksStand(code: seq<Byte>, selectors: seq<Selector>, deposit: Selector) {
    var n := |selectors|;
    && Stands(code, 0, Prologue(DepositAt(n)))
    && Stands(code, 14, CompareAll(selectors, ForwardAt(n)))
    && Stands(code, DepositAt(n), DepositBlock(deposit, CallAt(n)))
    && Stands(code, ForwardAt(n), ForwardBlock())
    && Stands(code, CallAt(n), CallBlock(PrecompileTail(), ReturnAt(n)))
    && Stands(code, ReturnAt(n), ReturnBlock())
  }

  lemma {:induction false} LayoutStands(selectors: seq<Selector>, deposit: Selector)
    ensures BlocksStand(Layout(selectors, deposit), selectors, deposit)
  {
    var n, code := |selectors|, Layout(selectors, deposit);
    var p1 := Prologue(DepositAt(n));
    var p2 := p1 + CompareAll(selectors, ForwardAt(n));
    var p3 := p2 + DepositBlock(deposit, CallAt(n));
    var p4 := p3 + ForwardBlock();
    var p5 := p4 + CallBlock(PrecompileTail(), ReturnAt(n));
    assert code == p5 + ReturnBlock();
    assert Stands(code, 0, p5 + ReturnBlock());
    StandsSplit(code, 0, p5, ReturnBlock());
    StandsSplit(code, 0, p4, CallBlock(PrecompileTail(), ReturnAt(n)));
    StandsSplit(code, 0, p3, ForwardBlock());
    StandsSplit(code, 0, p2, DepositBlock(deposit, CallAt(n)));
    StandsSplit(code, 0, p1, CompareAll(selectors, ForwardAt(n)));
  }

  lemma {:induction false} ComparePlaced(code: seq<Byte>, pc: nat, selectors: seq<Selector>, forward: nat, i: nat)
    requires Stands(code, pc, CompareAll(selectors, forward)) && i < |selectors|
    ensures Placed(code, pc + 11 * i, CompareProgram(selectors[i], forward))
    decreases i
  {
    StandsSplit(code, pc, Compare(selectors[0], forward), CompareAll(selectors[1..], forward));
    if i == 0 {
      CompareIs(selectors[0], forward);
      AssembledIsPlaced(code, pc, CompareProgram(selectors[0], forward));
    } else {
      ComparePlaced(code, pc + 11, selectors[1..], forward, i - 1);
    }
  }

  lemma {:induction false} CompareMeets(code: seq<Byte>, pc: nat, selectors: seq<Selector>, forward: nat, n: nat)
    requires Stands(code, pc, CompareAll(selectors, forward)) && n <= |selectors|
    ensures Meets(code, pc, pc + 11 * n)
  {
    if n > 0 {
      CompareMeets(code, pc, selectors, forward, n - 1);
      ComparePlaced(code, pc, selectors, forward, n - 1);
      var p := CompareProgram(selectors[n - 1], forward);
      PlacedMeets(code, pc + 11 * (n - 1), p);
      MeetsTrans(code, pc, pc + 11 * (n - 1), pc + 11 * n);
    }
  }

  /** The code in terms of instructions, with all its jump targets valid. */
  ghost predicate Ready(code: seq<Byte>, selectors: seq<Selector>, deposit: Selector) {
    var n := |selectors|;
    && Placed(code, 0, TestProgram(DepositAt(n)))
    && Placed(code, 8, LoadProgram())
    && (forall i | 0 <= i < n :: ComparePlacedAt(code, selectors, i))
    && Placed(code, DepositAt(n), DepositProgram(deposit, CallAt(n)))
    && Placed(code, ForwardAt(n), ForwardProgram())
    && Placed(code, CallAt(n), CallProgram(PrecompileTail()))
    && Placed(code, CallAt(n) + 15, AnswerProgram(ReturnAt(n)))
    && Placed(code, CallAt(n) + 25, RevertProgram())
    && Placed(code, ReturnAt(n), ReturnProgram())
    && ValidJump(code, DepositAt(n)) && ValidJump(code, ForwardAt(n))
    && ValidJump(code, CallAt(n)) && ValidJump(code, ReturnAt(n))
  }

  ghost predicate ComparePlacedAt(code: seq<Byte>, selectors: seq<Selector>, i: nat)
    requires i < |selectors|
  {
    Placed(code, 14 + 11 * i, CompareProgram(selectors[i], ForwardAt(|selectors|)))
  }

  lemma {:induction false} PlaceTwo(code: seq<Byte>, pc: nat, bytes: seq<Byte>, p: Program, q: Program)
    requires Stands(code, pc, bytes) && bytes == Assemble(p) + Assemble(q) && WellFormed(p) && WellFormed(q)
    ensures Placed(code, pc, p) && Placed(code, pc + Length(p), q) && |bytes| == Length(p) + Length(q)
    ensures Meets(code, pc, pc + |bytes|)
  {
    hide Placed, Stands, Meets, Assemble, WellFormed, Length;
    StandsSplit(code, pc, Assemble(p), Assemble(q));
    AssembledIsPlaced(code, pc, p);
    AssembledIsPlaced(code, pc + Length(p), q);
    PlacedMeets(code, pc, p);
    PlacedMeets(code, pc + Length(p), q);
    MeetsTrans(code, pc, pc + Length(p), pc + |bytes|);
  }

  lemma {:induction false} PlaceOne(code: seq<Byte>, pc: nat, bytes: seq<Byte>, p: Program)
    requires Stands(code, pc, bytes) && bytes == Assemble(p) && WellFormed(p)
    ensures Placed(code, pc, p) && Meets(code, pc, pc + |bytes|)
  {
    hide Placed, Stands, Meets, Assemble, WellFormed, Length;
    AssembledIsPlaced(code, pc, p);
    PlacedMeets(code, pc, p);
  }

  lemma {:induction false} ProloguePlaced(code: seq<Byte>, deposit: nat)
    requires Stands(code, 0, Prologue(deposit))
    ensures Placed(code, 0, TestProgram(deposit)) && Placed(code, 8, LoadProgram()) && Meets(code, 0, 14)
  {
    PrologueIs(deposit);
    PlaceTwo(code, 0, Prologue(deposit), TestProgram(deposit), LoadProgram());
  }

  lemma {:induction false} CallPlaced(code: seq<Byte>, pc: nat, a: Selector, return_: nat)
    requires Stands(code, pc, CallBlock(a, return_))
    ensures Placed(code, pc, CallProgram(a)) && Placed(code, pc + 15, AnswerProgram(return_))
    ensures Placed(code, pc + 25, RevertProgram()) && Meets(code, pc, pc + 29)
  {
    hide Placed, Stands, Meets, Assemble, CallBlock, DepositProgram, ForwardProgram, CallProgram, AnswerProgram, RevertProgram, ReturnProgram;
    CallIs(a, return_);
    var head := Assemble(CallProgram(a)) + Assemble(AnswerProgram(return_));
    StandsSplit(code, pc, head, Assemble(RevertProgram()));
    PlaceTwo(code, pc, head, CallProgram(a), AnswerProgram(return_));
    PlaceOne(code, pc + 25, Assemble(RevertProgram()), RevertProgram());
    MeetsTrans(code, pc, pc + 25, pc + 29);
  }

  lemma {:induction false} LayoutMeets(code: seq<Byte>, selectors: seq<Selector>, deposit: Selector)
    requires BlocksStand(code, selectors, deposit)
    ensures Meets(code, 0, DepositAt(|selectors|)) && Meets(code, 0, ForwardAt(|selectors|))
    ensures Meets(code, 0, CallAt(|selectors|)) && Meets(code, 0, ReturnAt(|selectors|))
  {
    hide Placed, Stands, Meets, Assemble, DepositBlock, ForwardBlock, CallBlock, Prologue, CompareAll, DepositProgram, ForwardProgram, CallProgram, AnswerProgram, RevertProgram, ReturnProgram;
    var n := |selectors|;
    ProloguePlaced(code, DepositAt(n));
    CompareMeets(code, 14, selectors, ForwardAt(n), n);
    MeetsTrans(code, 0, 14, DepositAt(n));
    DepositIs(deposit, CallAt(n));
    PlaceOne(code, DepositAt(n), DepositBlock(deposit, CallAt(n)), DepositProgram(deposit, CallAt(n)));
    MeetsTrans(code, 0, DepositAt(n), ForwardAt(n));
    ForwardIs();
    PlaceOne(code, ForwardAt(n), ForwardBlock(), ForwardProgram());
    MeetsTrans(code, 0, ForwardAt(n), CallAt(n));
    CallPlaced(code, CallAt(n), PrecompileTail(), ReturnAt(n));
    MeetsTrans(code, 0, CallAt(n), ReturnAt(n));
  }

  lemma {:induction false} StartsWithDest(code: seq<Byte>, pc: nat, bytes: seq<Byte>)
    requires Stands(code, pc, bytes) && bytes != [] && bytes[0] == JUMPDEST
    ensures pc < |code| && code[pc] == JUMPDEST
  {
    assert code[pc] == code[pc..pc + |bytes|][0];
  }

  lemma {:induction false} TargetsValid(code: seq<Byte>, selectors: seq<Selector>, deposit: Selector)
    requires BlocksStand(code, selectors, deposit)
    ensures ValidJump(code, DepositAt(|selectors|)) && ValidJump(code, ForwardAt(|selectors|))
    ensures ValidJump(code, CallAt(|selectors|)) && ValidJump(code, ReturnAt(|selectors|))
  {
    var n := |selectors|;
    LayoutMeets(code, selectors, deposit);
    StartsWithDest(code, DepositAt(n), DepositBlock(deposit, CallAt(n)));
    StartsWithDest(code, ForwardAt(n), ForwardBlock());
    StartsWithDest(code, CallAt(n), CallBlock(PrecompileTail(), ReturnAt(n)));
    StartsWithDest(code, ReturnAt(n), ReturnBlock());
  }

  lemma {:induction false} TailPlaced(code: seq<Byte>, selectors: seq<Selector>, deposit: Selector)
    requires BlocksStand(code, selectors, deposit)
    ensures Placed(code, DepositAt(|selectors|), DepositProgram(deposit, CallAt(|selectors|)))
    ensures Placed(code, ForwardAt(|selectors|), ForwardProgram())
    ensures Placed(code, ReturnAt(|selectors|), ReturnProgram())
  {
    hide Placed, Stands, Meets, Assemble, DepositBlock, ForwardBlock, ReturnBlock, DepositProgram, ForwardProgram, CallProgram, AnswerProgram, RevertProgram, ReturnProgram;
    var n := |selectors|;
    DepositIs(deposit, CallAt(n));
    PlaceOne(code, DepositAt(n), DepositBlock(deposit, CallAt(n)), DepositProgram(deposit, CallAt(n)));
    ForwardIs();
    PlaceOne(code, ForwardAt(n), ForwardBlock(), ForwardProgram());
    ReturnIs();
    PlaceOne(code, ReturnAt(n), ReturnBlock(), ReturnProgram());
  }

  lemma {:induction false} LayoutReady(code: seq<Byte>, selectors: seq<Selector>, deposit: Selector)
    requires BlocksStand(code, selectors, deposit)
    ensures Ready(code, selectors, deposit)
  {
    var n := |selectors|;
    TargetsValid(code, selectors, deposit);
    ProloguePlaced(code, DepositAt(n));
    forall i | 0 <= i < n ensures ComparePlacedAt(code, selectors, i) {
      ComparePlaced(code, 14, selectors, ForwardAt(n), i);
    }
    TailPlaced(code, selectors, deposit);
    CallPlaced(code, CallAt(n), PrecompileTail(), ReturnAt(n));
  }

  lemma {:induction false} ProxyReady(selectors: seq<Selector>, deposit: Selector)
    ensures Ready(Layout(selectors, deposit), selectors, deposit)
  {
    hide Ready, Layout, BlocksStand;
    LayoutStands(selectors, deposit);
    LayoutReady(Layout(selectors, deposit), selectors, deposit);
  }

  // ---- The specification ----------------------------------------------------------------------

  /** The address the precompile is mounted at. */
  function Precompile(): nat {
    Value(SlotAddress(16))
  }

  lemma {:induction false} PrecompileAddress()
    ensures Precompile() == 0x08020000
    ensures Precompile() == Value(PrecompileTail())
  {
    var address := SlotAddress(16);
    assert address == Zeros(16) + PrecompileTail();
    ValueConcat(Zeros(16), PrecompileTail());
    ValueZeros(16);
    var tail := PrecompileTail();
    assert tail == [8, 2, 0, 0];
    assert tail[..3] == [8, 2, 0] && [8, 2, 0][..2] == [8, 2] && [8, 2][..1] == [8];
    Value1(8);
    assert Value([8, 2]) == 8 * 256 + 2;
    assert Value([8, 2, 0]) == (8 * 256 + 2) * 256;
  }

  predicate Known(selectors: seq<Selector>, calldata: Data) {
    |calldata| >= 4 && calldata[..4] in selectors
  }

  /** What the proxy passes on. */
  function Forwarded(selectors: seq<Selector>, deposit: Selector, calldata: Data): seq<Byte> {
    if Known(selectors, calldata) then calldata else deposit
  }

  /** The end of the run: one call, and its answer as it came. */
  function Answer(env: Env, input: seq<Byte>): Machine {
    var answer := env.callee(Precompile(), input);
    Halted(if answer.success then Returned(answer.output) else Reverted(answer.output),
           [Call(Precompile(), input)])
  }

  /** From the call on, whatever the stack below and however long the input. */
  lemma {:induction false} FromCall(env: Env, selectors: seq<Selector>, deposit: Selector, size: nat, base: Stack, memory: seq<Byte>)
    requires env.code == Layout(selectors, deposit) && TargetsFit(selectors)
    ensures Reaches(env, At(CallAt(|selectors|), Push(size, base), memory), Answer(env, Slice(memory, 0, size)))
  {
    hide Reaches, Layout, Placed, ValidJump, Value, Slice, Write, DepositProgram, ForwardProgram, CallProgram, AnswerProgram, RevertProgram, ReturnProgram;
    ProxyReady(selectors, deposit);
    var n := |selectors|;
    var input := Slice(memory, 0, size);
    var stack := Push(size, base);
    var m0 := At(CallAt(n), stack, memory);
    PrecompileAddress();
    CallRun(env, CallAt(n), PrecompileTail(), size, base, memory);
    var m1 := Answered(env, CallAt(n) + 15, stack, memory, Precompile(), input);
    var answer := env.callee(Precompile(), input);
    AnswerRun(env, m1, answer.success, stack, ReturnAt(n));
    var m2 := m1.(pc := if answer.success then ReturnAt(n) else CallAt(n) + 25, stack := stack,
                  memory := Write(memory, 0, answer.output));
    ReachesTrans(env, m0, m1, m2);
    ReadBack(memory, answer.output);
    if answer.success {
      ReturnRun(env, m2);
    } else {
      RevertRun(env, m2);
    }
    ReachesTrans(env, m0, m2, Answer(env, input));
  }

  /** The deposit target is reached with an empty stack or with the selector on it. */
  lemma {:induction false} FromDeposit(env: Env, selectors: seq<Selector>, deposit: Selector, base: Stack)
    requires env.code == Layout(selectors, deposit) && TargetsFit(selectors)
    ensures Reaches(env, At(DepositAt(|selectors|), base, []), Answer(env, deposit))
  {
    hide Reaches, Layout, Placed, ValidJump, Value, Answer, DepositProgram, ForwardProgram, CallProgram, AnswerProgram, RevertProgram, ReturnProgram;
    ProxyReady(selectors, deposit);
    var n := |selectors|;
    DepositRun(env, DepositAt(n), deposit, CallAt(n), base);
    FromCall(env, selectors, deposit, 4, base, deposit + Zeros(28));
    assert Slice(deposit + Zeros(28), 0, 4) == deposit;
    ReachesTrans(env, At(DepositAt(n), base, []), At(CallAt(n), Push(4, base), deposit + Zeros(28)), Answer(env, deposit));
  }

  lemma {:induction false} FromForward(env: Env, selectors: seq<Selector>, deposit: Selector, base: Stack)
    requires env.code == Layout(selectors, deposit) && TargetsFit(selectors)
    ensures Reaches(env, At(ForwardAt(|selectors|), base, []), Answer(env, env.calldata))
  {
    hide Reaches, Layout, Placed, ValidJump, Value, Slice, Answer, DepositProgram, ForwardProgram, CallProgram, AnswerProgram, RevertProgram, ReturnProgram;
    ProxyReady(selectors, deposit);
    var n := |selectors|;
    ForwardRun(env, ForwardAt(n), base);
    FromCall(env, selectors, deposit, |env.calldata|, base, env.calldata);
    SliceAll(env.calldata);
    ReachesTrans(env, At(ForwardAt(n), base, []), At(CallAt(n), Push(|env.calldata|, base), env.calldata),
                 Answer(env, env.calldata));
  }

  /** Whether a selector is among those from the `i`th on. */
  predicate KnownFrom(selectors: seq<Selector>, i: nat, s: seq<Byte>)
    decreases |selectors| - i
  {
    i < |selectors| && (selectors[i] == s || KnownFrom(selectors, i + 1, s))
  }

  lemma {:induction false} KnownFromIs(selectors: seq<Selector>, i: nat, s: seq<Byte>)
    requires i <= |selectors|
    ensures KnownFrom(selectors, i, s) <==> s in selectors[i..]
    decreases |selectors| - i
  {
    if i < |selectors| {
      KnownFromIs(selectors, i + 1, s);
      assert selectors[i..] == [selectors[i]] + selectors[i + 1..];
    }
  }

  function Compared(env: Env, selectors: seq<Selector>, deposit: Selector, i: nat): Machine
    requires |env.calldata| >= 4
  {
    Answer(env, if KnownFrom(selectors, i, env.calldata[..4]) then env.calldata else deposit)
  }

  /** The comparisons from the `i`th on take the forward jump exactly on a match. */
  lemma {:induction false} FromCompare(env: Env, selectors: seq<Selector>, deposit: Selector, i: nat)
    requires env.code == Layout(selectors, deposit) && TargetsFit(selectors)
    requires i <= |selectors| && |env.calldata| >= 4
    ensures Reaches(env, At(14 + 11 * i, Push(Value(env.calldata[..4]), Empty), []), Compared(env, selectors, deposit, i))
    decreases |selectors| - i
  {
    hide Reaches, Ready, Layout;
    if i == |selectors| {
      FromDeposit(env, selectors, deposit, Push(Value(env.calldata[..4]), Empty));
    } else if env.calldata[..4] == selectors[i] {
      CompareHit(env, selectors, deposit, i);
    } else {
      FromCompare(env, selectors, deposit, i + 1);
      CompareMiss(env, selectors, deposit, i, Compared(env, selectors, deposit, i + 1));
    }
  }

  lemma {:induction false} CompareMiss(env: Env, selectors: seq<Selector>, deposit: Selector, i: nat, end: Machine)
    requires env.code == Layout(selectors, deposit) && TargetsFit(selectors)
    requires i < |selectors| && |env.calldata| >= 4 && env.calldata[..4] != selectors[i]
    requires Reaches(env, At(14 + 11 * (i + 1), Push(Value(env.calldata[..4]), Empty), []), end)
    ensures Reaches(env, At(14 + 11 * i, Push(Value(env.calldata[..4]), Empty), []), end)
  {
    hide Reaches, Ready, Layout;
    var stack := Push(Value(env.calldata[..4]), Empty);
    CompareOne(env, selectors, deposit, i);
    ReachesTrans(env, At(14 + 11 * i, stack, []), At(14 + 11 * (i + 1), stack, []), end);
  }

  lemma {:induction false} CompareHit(env: Env, selectors: seq<Selector>, deposit: Selector, i: nat)
    requires env.code == Layout(selectors, deposit) && TargetsFit(selectors)
    requires i < |selectors| && |env.calldata| >= 4 && env.calldata[..4] == selectors[i]
    ensures Reaches(env, At(14 + 11 * i, Push(Value(env.calldata[..4]), Empty), []), Answer(env, env.calldata))
  {
    hide Reaches, Ready, Layout;
    var stack := Push(Value(env.calldata[..4]), Empty);
    CompareOne(env, selectors, deposit, i);
    FromForward(env, selectors, deposit, stack);
    ReachesTrans(env, At(14 + 11 * i, stack, []), At(ForwardAt(|selectors|), stack, []), Answer(env, env.calldata));
  }

  lemma {:induction false} CompareOne(env: Env, selectors: seq<Selector>, deposit: Selector, i: nat)
    requires env.code == Layout(selectors, deposit) && TargetsFit(selectors)
    requires i < |selectors| && |env.calldata| >= 4
    ensures
      var stack := Push(Value(env.calldata[..4]), Empty);
      Reaches(env, At(14 + 11 * i, stack, []),
              At(if env.calldata[..4] == selectors[i] then ForwardAt(|selectors|) else 14 + 11 * (i + 1), stack, []))
  {
    hide Layout;
    ProxyReady(selectors, deposit);
    assert ComparePlacedAt(env.code, selectors, i);
    CompareRun(env, 14 + 11 * i, selectors[i], ForwardAt(|selectors|), Value(env.calldata[..4]));
    if Value(env.calldata[..4]) == Value(selectors[i]) {
      ValueInjective(env.calldata[..4], selectors[i]);
    }
  }

  lemma {:induction false} FromStart(env: Env, selectors: seq<Selector>, deposit: Selector)
    requires env.code == Layout(selectors, deposit) && TargetsFit(selectors)
    ensures Reaches(env, Start(), Answer(env, Forwarded(selectors, deposit, env.calldata)))
  {
    hide Reaches, Layout, Placed, ValidJump, Value, Answer, TestProgram, LoadProgram, DepositProgram, ForwardProgram, CallProgram,
      AnswerProgram, RevertProgram, ReturnProgram;
    ProxyReady(selectors, deposit);
    var n := |selectors|;
    TestRun(env, DepositAt(n));
    var end := Answer(env, Forwarded(selectors, deposit, env.calldata));
    if |env.calldata| < 4 {
      FromDeposit(env, selectors, deposit, Empty);
      ReachesTrans(env, Start(), At(DepositAt(n), Empty, []), end);
    } else {
      LoadRun(env);
      var loaded := At(14, Push(Value(env.calldata[..4]), Empty), []);
      ReachesTrans(env, Start(), At(8, Empty, []), loaded);
      FromCompare(env, selectors, deposit, 0);
      KnownFromIs(selectors, 0, env.calldata[..4]);
      assert selectors[0..] == selectors;
      ReachesTrans(env, Start(), loaded, end);
    }
  }

  /** For every calldata and every callee, the proxy makes exactly one DELEGATECALL, to the
      precompile, and ends with exactly the bytes that came back. A call with a known selector is
      passed on unchanged; anything else becomes a deposit. */
  lemma {:induction false} ProxyMeetsSpec(env: Env, selectors: seq<Selector>, deposit: Selector)
    requires env.code == Layout(selectors, deposit) && TargetsFit(selectors)
    ensures Reaches(env, Start(), Answer(env, Forwarded(selectors, deposit, env.calldata)))
    ensures forall n: nat | Run(env, Start(), n).Halted? ::
      Run(env, Start(), n) == Answer(env, Forwarded(selectors, deposit, env.calldata))
  {
    hide Reaches, Ready, Layout, BlocksStand, Run;
    FromStart(env, selectors, deposit);
    var end := Answer(env, Forwarded(selectors, deposit, env.calldata));
    forall k: nat | Run(env, Start(), k).Halted? ensures Run(env, Start(), k) == end {
      OneEnd(env, Start(), end, k);
    }
  }
}
