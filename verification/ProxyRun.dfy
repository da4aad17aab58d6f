/** What the proxy's bytecode does when it runs, for every calldata and every callee. */
module ProxyRun {
  import opened Powers
  import opened Bytes
  import opened Evm
  import opened ProxyCode

  // ---- Instructions -------------------------------------------------------------------------

  datatype Instr = Op(op: Byte) | PushData(data: seq<Byte>)

  datatype Program = Done | Seq(first: Instr, rest: Program)

  ghost predicate WellFormed(p: Program) {
    match p
    case Done => true
    case Seq(Op(op), rest) => !IsPush(op) && WellFormed(rest)
    case Seq(PushData(data), rest) => 1 <= |data| <= 32 && WellFormed(rest)
  }

  function Size(i: Instr): nat {
    match i
    case Op(_) => 1
    case PushData(data) => 1 + |data|
  }

  function Length(p: Program): nat {
    if p.Done? then 0 else Size(p.first) + Length(p.rest)
  }

  ghost predicate InstrAt(code: seq<Byte>, pc: nat, i: Instr) {
    match i
    case Op(op) => pc < |code| && code[pc] == op
    case PushData(data) =>
      1 <= |data| <= 32 && pc + |data| < |code| && code[pc] == PUSH1 + |data| - 1 && code[pc + 1..pc + 1 + |data|] == data
  }

  /** The program stands at `pc` of the code. */
  ghost predicate Placed(code: seq<Byte>, pc: nat, p: Program)
    decreases p
  {
    match p
    case Done => true
    case Seq(i, rest) => InstrAt(code, pc, i) && Placed(code, pc + Size(i), rest)
  }

  /** Reading instructions from its start meets its end. */
  lemma {:induction false} PlacedMeets(code: seq<Byte>, pc: nat, p: Program)
    requires Placed(code, pc, p) && WellFormed(p)
    ensures Meets(code, pc, pc + Length(p))
    decreases p
  {
    if p.Seq? {
      PlacedMeets(code, pc + Size(p.first), p.rest);
      MeetsBelow(code, pc + Size(p.first), pc + Length(p));
    }
  }

  lemma {:induction false} StepPush(env: Env, m: Machine, data: seq<Byte>)
    requires m.Running? && InstrAt(env.code, m.pc, PushData(data))
    ensures Step(env, m) == m.(pc := m.pc + 1 + |data|, stack := Push(Value(data), m.stack))
  {
    assert Slice(env.code, m.pc + 1, |data|) == data;
  }

  lemma {:induction false} Value1(x: Byte)
    ensures Value([x]) == x
  {
    assert Value([x]) == Value([x][..0]) * 256 + [x][0];
  }

  lemma {:induction false} Value2(target: nat)
    requires target < 0x1_0000
    ensures Value([High(target), Low(target)]) == target
  {
    var t := [High(target), Low(target)];
    assert t[..1] == [High(target)];
    Value1(High(target));
    assert Value(t) == Value(t[..1]) * 256 + t[1];
  }

  // ---- Words --------------------------------------------------------------------------------

  /** The word at the start of the calldata, shifted down, is its first four bytes. */
  lemma {:induction false} SelectorOf(calldata: Data)
    requires |calldata| >= 4
    ensures ShiftRight(Value(Slice(calldata, 0, 32)), 0xe0) == Value(calldata[..4])
  {
    var word := Slice(calldata, 0, 32);
    assert word == word[..4] + word[4..];
    assert word[..4] == calldata[..4];
    LeadingBytes(word[..4], word[4..]);
  }

  /** A selector shifted up by all but its own four bytes fills the first four bytes of the word. */
  lemma {:induction false} StoredSelector(s: Selector)
    ensures Encode(ShiftLeft(Value(s), 0xe0), 32) == s + Zeros(28)
  {
    ValueBound(s);
    StoredWord(s, 28, 32, 0xe0);
  }

  lemma {:induction false} StoredWord(s: Selector, n: nat, a: nat, shift: nat)
    requires shift == 8 * n && Value(s) < Pow2(a) && a + shift == 256 && a > 0
    ensures Encode(ShiftLeft(Value(s), shift), 4 + n) == s + Zeros(n)
  {
    ShiftFits(Value(s), a, shift);
    TrailingZeros(s, n, ShiftLeft(Value(s), shift));
  }

  lemma {:induction false} ShiftFits(v: nat, a: nat, shift: nat)
    requires v < Pow2(a) && a + shift == 256 && a > 0
    ensures ShiftLeft(v, shift) == v * Pow2(shift)
  {
    PowersToWord(a, shift);
    ProductBelow(v, Pow2(a), Pow2(shift), WORD_SIZE);
    SmallMod(v * Pow2(shift), WORD_SIZE);
  }

  lemma {:induction false} PowersToWord(a: nat, b: nat)
    requires a + b == 256
    ensures Pow2(a) * Pow2(b) == WORD_SIZE
  {
    Pow2Add(a, b);
    Pow2Of256();
  }

  lemma {:induction false} ProductBelow(v: nat, p: nat, q: nat, w: nat)
    requires v < p && p * q == w && q >= 1
    ensures 0 <= v * q < w
  {
    MulMonotone(v + 1, p, q);
  }

  lemma {:induction false} SmallMod(x: nat, d: nat)
    requires x < d
    ensures x % d == x
  {
  }

  lemma {:induction false} WriteFresh(data: seq<Byte>)
    ensures Write([], 0, data) == data
  {
  }

  lemma {:induction false} SliceAll(data: seq<Byte>)
    ensures Slice(data, 0, |data|) == data
  {
  }

  lemma {:induction false} ReadBack(memory: seq<Byte>, data: seq<Byte>)
    ensures Slice(Write(memory, 0, data), 0, |data|) == data
  {
  }

  // ---- The programs of the blocks -----------------------------------------------------------

  ghost function OpThen(op: Byte, rest: Program): (p: Program)
    requires !IsPush(op) && WellFormed(rest)
    ensures WellFormed(p) && Length(p) == 1 + Length(rest)
  {
    Seq(Op(op), rest)
  }

  ghost function PushThen(data: seq<Byte>, rest: Program): (p: Program)
    requires 1 <= |data| <= 32 && WellFormed(rest)
    ensures WellFormed(p) && Length(p) == 1 + |data| + Length(rest)
  {
    Seq(PushData(data), rest)
  }

  ghost function TestProgram(deposit: nat): (p: Program)
    ensures WellFormed(p) && Length(p) == 8
  {
    PushThen([4], OpThen(CALLDATASIZE, OpThen(LT, PushThen([High(deposit), Low(deposit)], OpThen(JUMPI, Done)))))
  }

  ghost function LoadProgram(): (p: Program)
    ensures WellFormed(p) && Length(p) == 6
  {
    PushThen([0], OpThen(CALLDATALOAD, PushThen([0xe0], OpThen(SHR, Done))))
  }

  ghost function CompareProgram(s: Selector, forward: nat): (p: Program)
    ensures WellFormed(p) && Length(p) == 11
  {
    OpThen(DUP1, PushThen(s, OpThen(EQ, PushThen([High(forward), Low(forward)], OpThen(JUMPI, Done)))))
  }

  ghost function DepositProgram(s: Selector, call: nat): (p: Program)
    ensures WellFormed(p) && Length(p) == 18
  {
    OpThen(JUMPDEST, PushThen(s, PushThen([0xe0], OpThen(SHL, PushThen([0], OpThen(MSTORE, PushThen([4], PushThen([High(call), Low(call)], OpThen(JUMP, Done)))))))))
  }

  ghost function ForwardProgram(): (p: Program)
    ensures WellFormed(p) && Length(p) == 8
  {
    OpThen(JUMPDEST, OpThen(CALLDATASIZE, PushThen([0], PushThen([0], OpThen(CALLDATACOPY, OpThen(CALLDATASIZE, Done))))))
  }

  ghost function CallProgram(a: Selector): (p: Program)
    ensures WellFormed(p) && Length(p) == 15
  {
    OpThen(JUMPDEST, PushThen([0], PushThen([0], OpThen(DUP3, PushThen([0], PushThen(a, OpThen(GAS, OpThen(DELEGATECALL, Done))))))))
  }

  ghost function AnswerProgram(return_: nat): (p: Program)
    ensures WellFormed(p) && Length(p) == 10
  {
    OpThen(RETURNDATASIZE, PushThen([0], PushThen([0], OpThen(RETURNDATACOPY, PushThen([High(return_), Low(return_)], OpThen(JUMPI, Done))))))
  }

  ghost function RevertProgram(): (p: Program)
    ensures WellFormed(p) && Length(p) == 4
  {
    OpThen(RETURNDATASIZE, PushThen([0], OpThen(REVERT, Done)))
  }

  ghost function ReturnProgram(): (p: Program)
    ensures WellFormed(p) && Length(p) == 5
  {
    OpThen(JUMPDEST, OpThen(RETURNDATASIZE, PushThen([0], OpThen(RETURN, Done))))
  }

  // ---- Single instructions ------------------------------------------------------------------

  lemma {:induction false} RunPush(env: Env, m0: Machine, m: Machine, data: seq<Byte>, rest: Program, value: nat)
    requires Reaches(env, m0, m) && m.Running? && Placed(env.code, m.pc, Seq(PushData(data), rest))
    requires value == Value(data)
    ensures Reaches(env, m0, m.(pc := m.pc + 1 + |data|, stack := Push(value, m.stack)))
    ensures Placed(env.code, m.pc + 1 + |data|, rest)
  {
    StepPush(env, m, data);
    Then(env, m0, m);
  }

  lemma {:induction false} RunOp(env: Env, m0: Machine, m: Machine, op: Byte, rest: Program, m': Machine)
    requires Reaches(env, m0, m) && m.Running? && Placed(env.code, m.pc, Seq(Op(op), rest))
    requires Step(env, m) == m'
    ensures Reaches(env, m0, m')
    ensures Placed(env.code, m.pc + 1, rest)
  {
    Then(env, m0, m);
  }

  function At(pc: nat, stack: Stack, memory: seq<Byte>): Machine {
    Running(pc, stack, memory, [], [])
  }

  // ---- Blocks -------------------------------------------------------------------------------

  lemma {:induction false} TestRun(env: Env, deposit: nat)
    requires Placed(env.code, 0, TestProgram(deposit)) && deposit < 0x1_0000 && ValidJump(env.code, deposit)
    ensures Reaches(env, Start(), if |env.calldata| < 4 then At(deposit, Empty, []) else At(8, Empty, []))
  {
    hide Reaches;
    var p := TestProgram(deposit);
    var m0 := Start();
    Here(env, m0);
    Value1(4);
    RunPush(env, m0, m0, [4], p.rest, 4);
    var m1 := At(2, Push(4, Empty), []);
    p := p.rest;
    var m2 := At(3, Push(|env.calldata|, Push(4, Empty)), []);
    RunOp(env, m0, m1, CALLDATASIZE, p.rest, m2);
    p := p.rest;
    var m3 := At(4, Push(if |env.calldata| < 4 then 1 else 0, Empty), []);
    RunOp(env, m0, m2, LT, p.rest, m3);
    p := p.rest;
    Value2(deposit);
    RunPush(env, m0, m3, [High(deposit), Low(deposit)], p.rest, deposit);
    p := p.rest;
    var m4 := At(7, Push(deposit, m3.stack), []);
    RunOp(env, m0, m4, JUMPI, p.rest, if |env.calldata| < 4 then At(deposit, Empty, []) else At(8, Empty, []));
  }

  lemma {:induction false} LoadRun(env: Env)
    requires Placed(env.code, 8, LoadProgram()) && |env.calldata| >= 4
    ensures Reaches(env, At(8, Empty, []), At(14, Push(Value(env.calldata[..4]), Empty), []))
  {
    hide Reaches;
    var p := LoadProgram();
    var m0 := At(8, Empty, []);
    Here(env, m0);
    Value1(0);
    RunPush(env, m0, m0, [0], p.rest, 0);
    p := p.rest;
    var word := Value(Slice(env.calldata, 0, 32));
    var m1 := At(10, Push(0, Empty), []);
    var m2 := At(11, Push(word, Empty), []);
    RunOp(env, m0, m1, CALLDATALOAD, p.rest, m2);
    p := p.rest;
    Value1(0xe0);
    RunPush(env, m0, m2, [0xe0], p.rest, 0xe0);
    p := p.rest;
    SelectorOf(env.calldata);
    var m3 := At(13, Push(0xe0, Push(word, Empty)), []);
    StepShr(env, m3, word, 0xe0, Empty);
    RunOp(env, m0, m3, SHR, p.rest, At(14, Push(Value(env.calldata[..4]), Empty), []));
  }

  lemma {:induction false} StepShr(env: Env, m: Machine, value: nat, shift: nat, rest: Stack)
    requires m.Running? && InstrAt(env.code, m.pc, Op(SHR))
    requires m.stack == Push(shift, Push(value, rest))
    ensures Step(env, m) == m.(pc := m.pc + 1, stack := Push(ShiftRight(value, shift), rest))
  {
  }

  lemma {:induction false} StepShl(env: Env, m: Machine, value: nat, shift: nat, rest: Stack)
    requires m.Running? && InstrAt(env.code, m.pc, Op(SHL))
    requires m.stack == Push(shift, Push(value, rest))
    ensures Step(env, m) == m.(pc := m.pc + 1, stack := Push(ShiftLeft(value, shift), rest))
  {
  }

  lemma {:induction false} CompareRun(env: Env, pc: nat, s: Selector, forward: nat, v: nat)
    requires Placed(env.code, pc, CompareProgram(s, forward)) && forward < 0x1_0000 && ValidJump(env.code, forward)
    ensures Reaches(env, At(pc, Push(v, Empty), []),
                    At(if v == Value(s) then forward else pc + 11, Push(v, Empty), []))
  {
    hide Reaches;
    var p := CompareProgram(s, forward);
    var m0 := At(pc, Push(v, Empty), []);
    Here(env, m0);
    var m1 := At(pc + 1, Push(v, Push(v, Empty)), []);
    RunOp(env, m0, m0, DUP1, p.rest, m1);
    p := p.rest;
    RunPush(env, m0, m1, s, p.rest, Value(s));
    p := p.rest;
    var m2 := At(pc + 6, Push(Value(s), m1.stack), []);
    var m3 := At(pc + 7, Push(if v == Value(s) then 1 else 0, Push(v, Empty)), []);
    RunOp(env, m0, m2, EQ, p.rest, m3);
    p := p.rest;
    Value2(forward);
    RunPush(env, m0, m3, [High(forward), Low(forward)], p.rest, forward);
    p := p.rest;
    var m4 := At(pc + 10, Push(forward, m3.stack), []);
    RunOp(env, m0, m4, JUMPI, p.rest, At(if v == Value(s) then forward else pc + 11, Push(v, Empty), []));
  }

  /** The deposit block, entered with any stack below. */
  lemma {:induction false} DepositRun(env: Env, pc: nat, s: Selector, call: nat, base: Stack)
    requires Placed(env.code, pc, DepositProgram(s, call)) && call < 0x1_0000 && ValidJump(env.code, call)
    ensures Reaches(env, At(pc, base, []), At(call, Push(4, base), s + Zeros(28)))
  {
    hide Reaches;
    var p := DepositProgram(s, call);
    var m0 := At(pc, base, []);
    Here(env, m0);
    var m1 := At(pc + 1, base, []);
    RunOp(env, m0, m0, JUMPDEST, p.rest, m1);
    p := p.rest;
    RunPush(env, m0, m1, s, p.rest, Value(s));
    p := p.rest;
    var m2 := At(pc + 6, Push(Value(s), base), []);
    Value1(0xe0);
    RunPush(env, m0, m2, [0xe0], p.rest, 0xe0);
    p := p.rest;
    var m3 := At(pc + 8, Push(0xe0, m2.stack), []);
    var word := ShiftLeft(Value(s), 0xe0);
    var m4 := At(pc + 9, Push(word, base), []);
    StepShl(env, m3, Value(s), 0xe0, base);
    RunOp(env, m0, m3, SHL, p.rest, m4);
    StoredSelector(s);
    DepositStore(env, pc + 9, s, call, base, word);
    ReachesTrans(env, m0, m4, At(call, Push(4, base), s + Zeros(28)));
  }

  lemma {:induction false} StoreFresh(env: Env, m: Machine, word: nat, rest: Stack, memory: seq<Byte>)
    requires m.Running? && m.memory == [] && InstrAt(env.code, m.pc, Op(MSTORE))
    requires m.stack == Push(0, Push(word, rest)) && Encode(word, 32) == memory
    ensures Step(env, m) == m.(pc := m.pc + 1, stack := rest, memory := memory)
  {
    WriteFresh(memory);
  }

  lemma {:induction false} DepositStore(env: Env, pc: nat, s: Selector, call: nat, base: Stack, word: nat)
    requires Placed(env.code, pc, DepositProgram(s, call).rest.rest.rest.rest)
    requires call < 0x1_0000 && ValidJump(env.code, call)
    requires Encode(word, 32) == s + Zeros(28)
    ensures Reaches(env, At(pc, Push(word, base), []), At(call, Push(4, base), s + Zeros(28)))
  {
    hide Reaches;
    var p := DepositProgram(s, call).rest.rest.rest.rest;
    var memory := s + Zeros(28);
    var m0 := At(pc, Push(word, base), []);
    Here(env, m0);
    Value1(0);
    RunPush(env, m0, m0, [0], p.rest, 0);
    p := p.rest;
    var m1 := At(pc + 2, Push(0, m0.stack), []);
    var m2 := At(pc + 3, base, memory);
    StoreFresh(env, m1, word, base, memory);
    RunOp(env, m0, m1, MSTORE, p.rest, m2);
    DepositJump(env, pc + 3, s, call, base, memory);
    ReachesTrans(env, m0, m2, At(call, Push(4, base), memory));
  }

  lemma {:induction false} DepositJump(env: Env, pc: nat, s: Selector, call: nat, base: Stack, memory: seq<Byte>)
    requires Placed(env.code, pc, DepositProgram(s, call).rest.rest.rest.rest.rest.rest)
    requires call < 0x1_0000 && ValidJump(env.code, call)
    ensures Reaches(env, At(pc, base, memory), At(call, Push(4, base), memory))
  {
    hide Reaches;
    var p := DepositProgram(s, call).rest.rest.rest.rest.rest.rest;
    var m2 := At(pc, base, memory);
    Here(env, m2);
    Value1(4);
    RunPush(env, m2, m2, [4], p.rest, 4);
    p := p.rest;
    var m3 := At(pc + 2, Push(4, base), memory);
    Value2(call);
    RunPush(env, m2, m3, [High(call), Low(call)], p.rest, call);
    p := p.rest;
    var m4 := At(pc + 5, Push(call, m3.stack), memory);
    RunOp(env, m2, m4, JUMP, p.rest, At(call, Push(4, base), memory));
  }

  lemma {:induction false} CopyFresh(env: Env, m: Machine, rest: Stack)
    requires m.Running? && m.memory == [] && InstrAt(env.code, m.pc, Op(CALLDATACOPY))
    requires m.stack == Push(0, Push(0, Push(|env.calldata|, rest)))
    ensures Step(env, m) == m.(pc := m.pc + 1, stack := rest, memory := env.calldata)
  {
    SliceAll(env.calldata);
    WriteFresh(env.calldata);
  }

  /** The forward block copies the calldata as it is. */
  lemma {:induction false} ForwardRun(env: Env, pc: nat, base: Stack)
    requires Placed(env.code, pc, ForwardProgram())
    ensures Reaches(env, At(pc, base, []), At(pc + 8, Push(|env.calldata|, base), env.calldata))
  {
    hide Reaches;
    var p := ForwardProgram();
    var size := |env.calldata|;
    var m0 := At(pc, base, []);
    Here(env, m0);
    var m1 := At(pc + 1, base, []);
    RunOp(env, m0, m0, JUMPDEST, p.rest, m1);
    p := p.rest;
    var m2 := At(pc + 2, Push(size, base), []);
    RunOp(env, m0, m1, CALLDATASIZE, p.rest, m2);
    p := p.rest;
    Value1(0);
    RunPush(env, m0, m2, [0], p.rest, 0);
    p := p.rest;
    var m3 := At(pc + 4, Push(0, m2.stack), []);
    RunPush(env, m0, m3, [0], p.rest, 0);
    p := p.rest;
    var m4 := At(pc + 6, Push(0, m3.stack), []);
    ForwardCopy(env, pc + 6, base);
    ReachesTrans(env, m0, m4, At(pc + 8, Push(size, base), env.calldata));
  }

  lemma {:induction false} ForwardCopy(env: Env, pc: nat, base: Stack)
    requires Placed(env.code, pc, ForwardProgram().rest.rest.rest.rest)
    ensures Reaches(env, At(pc, Push(0, Push(0, Push(|env.calldata|, base))), []),
                    At(pc + 2, Push(|env.calldata|, base), env.calldata))
  {
    hide Reaches;
    var p := ForwardProgram().rest.rest.rest.rest;
    var m0 := At(pc, Push(0, Push(0, Push(|env.calldata|, base))), []);
    Here(env, m0);
    var m1 := At(pc + 1, base, env.calldata);
    CopyFresh(env, m0, base);
    RunOp(env, m0, m0, CALLDATACOPY, p.rest, m1);
    p := p.rest;
    RunOp(env, m0, m1, CALLDATASIZE, p.rest, At(pc + 2, Push(|env.calldata|, base), env.calldata));
  }

  // ---- The call and what comes back ---------------------------------------------------------

  /** The machine right after the call. */
  function Answered(env: Env, pc: nat, stack: Stack, memory: seq<Byte>, address: nat, input: seq<Byte>): Machine {
    var answer := env.callee(address, input);
    Running(pc, Push(if answer.success then 1 else 0, stack), memory, answer.output, [Call(address, input)])
  }

  /** The call block passes `size` bytes of memory to the precompile, whatever lies below. */
  lemma {:induction false} CallRun(env: Env, pc: nat, a: Selector, size: nat, base: Stack, memory: seq<Byte>)
    requires Placed(env.code, pc, CallProgram(a))
    ensures Reaches(env, At(pc, Push(size, base), memory),
                    Answered(env, pc + 15, Push(size, base), memory, Value(a), Slice(memory, 0, size)))
  {
    hide Reaches;
    var p := CallProgram(a);
    var stack := Push(size, base);
    var m0 := At(pc, stack, memory);
    Here(env, m0);
    var m1 := At(pc + 1, stack, memory);
    RunOp(env, m0, m0, JUMPDEST, p.rest, m1);
    p := p.rest;
    Value1(0);
    RunPush(env, m0, m1, [0], p.rest, 0);
    p := p.rest;
    var m2 := At(pc + 3, Push(0, stack), memory);
    RunPush(env, m0, m2, [0], p.rest, 0);
    p := p.rest;
    var m3 := At(pc + 5, Push(0, Push(0, stack)), memory);
    var m4 := At(pc + 6, Push(size, m3.stack), memory);
    DupThird(m3.stack, size);
    RunOp(env, m0, m3, DUP3, p.rest, m4);
    p := p.rest;
    RunPush(env, m0, m4, [0], p.rest, 0);
    p := p.rest;
    var m5 := At(pc + 8, Push(0, m4.stack), memory);
    CallTail(env, pc + 8, a, size, stack, memory);
    ReachesTrans(env, m0, m5, Answered(env, pc + 15, stack, memory, Value(a), Slice(memory, 0, size)));
  }

  lemma {:induction false} DupThird(stack: Stack, size: nat)
    requires stack.Push? && stack.rest.Push? && stack.rest.rest.Push? && stack.rest.rest.top == size
    ensures Peek(stack, 2) == (true, size)
  {
    assert Peek(stack.rest.rest, 0) == (true, size);
    assert Peek(stack.rest, 1) == (true, size);
  }

  lemma {:induction false} CallTail(env: Env, pc: nat, a: Selector, size: nat, stack: Stack, memory: seq<Byte>)
    requires Placed(env.code, pc, CallProgram(a).rest.rest.rest.rest.rest)
    ensures Reaches(env, At(pc, Push(0, Push(size, Push(0, Push(0, stack)))), memory),
                    Answered(env, pc + 7, stack, memory, Value(a), Slice(memory, 0, size)))
  {
    hide Reaches;
    var p := CallProgram(a).rest.rest.rest.rest.rest;
    var m0 := At(pc, Push(0, Push(size, Push(0, Push(0, stack)))), memory);
    Here(env, m0);
    RunPush(env, m0, m0, a, p.rest, Value(a));
    p := p.rest;
    var m1 := At(pc + 5, Push(Value(a), m0.stack), memory);
    var m2 := At(pc + 6, Push(env.gas % WORD_SIZE, m1.stack), memory);
    RunOp(env, m0, m1, GAS, p.rest, m2);
    p := p.rest;
    RunOp(env, m0, m2, DELEGATECALL, p.rest,
          Answered(env, pc + 7, stack, memory, Value(a), Slice(memory, 0, size)));
  }

  /** The answer is copied to memory and told apart by the success flag. */
  lemma {:induction false} AnswerRun(env: Env, m: Machine, success: bool, stack: Stack, return_: nat)
    requires m.Running? && m.stack == Push(if success then 1 else 0, stack)
    requires Placed(env.code, m.pc, AnswerProgram(return_)) && return_ < 0x1_0000 && ValidJump(env.code, return_)
    ensures Reaches(env, m, m.(pc := if success then return_ else m.pc + 10, stack := stack,
                               memory := Write(m.memory, 0, m.returnData)))
  {
    hide Reaches;
    var p := AnswerProgram(return_);
    Here(env, m);
    var m1 := m.(pc := m.pc + 1, stack := Push(|m.returnData|, m.stack));
    RunOp(env, m, m, RETURNDATASIZE, p.rest, m1);
    p := p.rest;
    Value1(0);
    RunPush(env, m, m1, [0], p.rest, 0);
    p := p.rest;
    var m2 := m.(pc := m.pc + 3, stack := Push(0, m1.stack));
    RunPush(env, m, m2, [0], p.rest, 0);
    p := p.rest;
    var m3 := m.(pc := m.pc + 5, stack := Push(0, m2.stack));
    var m4 := m.(pc := m.pc + 6, memory := Write(m.memory, 0, m.returnData));
    assert m.returnData[0..0 + |m.returnData|] == m.returnData;
    RunOp(env, m, m3, RETURNDATACOPY, p.rest, m4);
    p := p.rest;
    Value2(return_);
    RunPush(env, m, m4, [High(return_), Low(return_)], p.rest, return_);
    p := p.rest;
    var m5 := m4.(pc := m.pc + 9, stack := Push(return_, m4.stack));
    RunOp(env, m, m5, JUMPI, p.rest, m4.(pc := if success then return_ else m.pc + 10, stack := stack));
  }

  lemma {:induction false} RevertRun(env: Env, m: Machine)
    requires m.Running? && Placed(env.code, m.pc, RevertProgram())
    ensures Reaches(env, m, Halted(Reverted(Slice(m.memory, 0, |m.returnData|)), m.calls))
  {
    hide Reaches;
    var p := RevertProgram();
    Here(env, m);
    var m1 := m.(pc := m.pc + 1, stack := Push(|m.returnData|, m.stack));
    RunOp(env, m, m, RETURNDATASIZE, p.rest, m1);
    p := p.rest;
    Value1(0);
    RunPush(env, m, m1, [0], p.rest, 0);
    p := p.rest;
    var m2 := m.(pc := m.pc + 3, stack := Push(0, m1.stack));
    RunOp(env, m, m2, REVERT, p.rest, Halted(Reverted(Slice(m.memory, 0, |m.returnData|)), m.calls));
  }

  lemma {:induction false} ReturnRun(env: Env, m: Machine)
    requires m.Running? && Placed(env.code, m.pc, ReturnProgram())
    ensures Reaches(env, m, Halted(Returned(Slice(m.memory, 0, |m.returnData|)), m.calls))
  {
    hide Reaches;
    var p := ReturnProgram();
    Here(env, m);
    var m0 := m.(pc := m.pc + 1);
    RunOp(env, m, m, JUMPDEST, p.rest, m0);
    p := p.rest;
    var m1 := m.(pc := m.pc + 2, stack := Push(|m.returnData|, m.stack));
    RunOp(env, m, m0, RETURNDATASIZE, p.rest, m1);
    p := p.rest;
    Value1(0);
    RunPush(env, m, m1, [0], p.rest, 0);
    p := p.rest;
    var m2 := m.(pc := m.pc + 4, stack := Push(0, m1.stack));
    RunOp(env, m, m2, RETURN, p.rest, Halted(Returned(Slice(m.memory, 0, |m.returnData|)), m.calls));
  }
}
