/** A small EVM: the instructions the token proxy is made of, with the semantics of Appendix H.2
    of the Ethereum Yellow Paper, jump validity of its section 9.4.3, EIP-145 for the shifts,
    EIP-211 for return data and EIP-140 for REVERT. Gas is not metered. */
module Evm {
  import opened Powers
  import opened Bytes

  const LT: Byte := 0x10
  const EQ: Byte := 0x14
  const SHL: Byte := 0x1b
  const SHR: Byte := 0x1c
  const CALLDATALOAD: Byte := 0x35
  const CALLDATASIZE: Byte := 0x36
  const CALLDATACOPY: Byte := 0x37
  const RETURNDATASIZE: Byte := 0x3d
  const RETURNDATACOPY: Byte := 0x3e
  const MSTORE: Byte := 0x52
  const JUMP: Byte := 0x56
  const JUMPI: Byte := 0x57
  const GAS: Byte := 0x5a
  const JUMPDEST: Byte := 0x5b
  const PUSH1: Byte := 0x60
  const PUSH2: Byte := 0x61
  const PUSH4: Byte := 0x63
  const PUSH32: Byte := 0x7f
  const DUP1: Byte := 0x80
  const DUP3: Byte := 0x82
  const DUP16: Byte := 0x8f
  const RETURN: Byte := 0xf3
  const DELEGATECALL: Byte := 0xf4
  const REVERT: Byte := 0xfd

  const WORD_SIZE: nat := 0x1_0000_0000_0000_0000_0000_0000_0000_0000_0000_0000_0000_0000_0000_0000_0000_0000

  /** Data whose length is a word. */
  type Data = s: seq<Byte> | |s| < WORD_SIZE

  datatype Stack = Empty | Push(top: nat, rest: Stack)

  datatype Call = Call(address: nat, input: seq<Byte>)

  datatype CallOutcome = CallOutcome(success: bool, output: Data)

  /** What a run depends on. The callee answers any input as it likes. */
  datatype Env = Env(code: seq<Byte>, calldata: Data, gas: nat, callee: (nat, seq<Byte>) -> CallOutcome)

  datatype Result = Returned(output: seq<Byte>) | Reverted(output: seq<Byte>) | Failed

  datatype Machine =
    | Running(pc: nat, stack: Stack, memory: seq<Byte>, returnData: Data, calls: seq<Call>)
    | Halted(result: Result, calls: seq<Call>)

  // ---- Data ---------------------------------------------------------------------------------

  /** `n` bytes from `from` on, zero past the end. */
  function Slice(s: seq<Byte>, from: nat, n: nat): (r: seq<Byte>)
    ensures |r| == n
  {
    seq(n, i requires 0 <= i < n => if from + i < |s| then s[from + i] else 0)
  }

  function Write(memory: seq<Byte>, at: nat, data: seq<Byte>): seq<Byte> {
    if data == [] then memory
    else Slice(memory, 0, at) + data + (if at + |data| < |memory| then memory[at + |data|..] else [])
  }

  // ---- Jump validity ------------------------------------------------------------------------

  predicate IsPush(op: Byte) {
    PUSH1 <= op <= PUSH32
  }

  function PushSize(op: Byte): nat
    requires IsPush(op)
  {
    op - PUSH1 + 1
  }

  /** The instruction after the one at `pc`, skipping the data of a push. */
  function NextPc(code: seq<Byte>, pc: nat): nat
    requires pc < |code|
  {
    if IsPush(code[pc]) then pc + 1 + PushSize(code[pc]) else pc + 1
  }

  /** Whether reading instructions from `from` meets `target`. */
  predicate Meets(code: seq<Byte>, from: nat, target: nat)
    decreases target - from
  {
    from == target || (from < target && from < |code| && Meets(code, NextPc(code, from), target))
  }

  predicate ValidJump(code: seq<Byte>, target: nat) {
    target < |code| && code[target] == JUMPDEST && Meets(code, 0, target)
  }

  lemma {:induction false} MeetsTrans(code: seq<Byte>, a: nat, b: nat, c: nat)
    requires Meets(code, a, b) && Meets(code, b, c)
    ensures Meets(code, a, c)
    decreases b - a
  {
    if a != b {
      MeetsBelow(code, b, c);
      MeetsTrans(code, NextPc(code, a), b, c);
    }
  }

  lemma MeetsBelow(code: seq<Byte>, a: nat, b: nat)
    requires Meets(code, a, b)
    ensures a <= b
  {
  }

  // ---- Execution ----------------------------------------------------------------------------

  function Peek(stack: Stack, n: nat): (w: (bool, nat))
    decreases n
  {
    if stack.Empty? then (false, 0) else if n == 0 then (true, stack.top) else Peek(stack.rest, n - 1)
  }

  function Fail(m: Machine): Machine {
    Halted(Failed, m.calls)
  }

  function JumpTo(env: Env, m: Machine, target: nat, stack: Stack): Machine
    requires m.Running?
  {
    if ValidJump(env.code, target) then m.(pc := target, stack := stack) else Fail(m)
  }

  function ShiftLeft(value: nat, shift: nat): nat {
    if shift >= 256 then 0 else value * Pow2(shift) % WORD_SIZE
  }

  function ShiftRight(value: nat, shift: nat): nat {
    if shift >= 256 then 0 else DivNat(value, Pow2(shift))
  }

  function DivNat(a: nat, d: nat): nat
    requires d > 0
  {
    DivMonotone(0, a, d);
    a / d
  }

  function Step(env: Env, m: Machine): Machine {
    if m.Halted? then m
    else if m.pc >= |env.code| then Halted(Returned([]), m.calls)
    else
      var op := env.code[m.pc];
      var m' := m.(pc := m.pc + 1);
      if IsPush(op) then
        m.(pc := m.pc + 1 + PushSize(op), stack := Push(Value(Slice(env.code, m.pc + 1, PushSize(op))), m.stack))
      else if DUP1 <= op <= DUP16 then
        var (found, word) := Peek(m.stack, op - DUP1);
        if found then m'.(stack := Push(word, m.stack)) else Fail(m)
      else if op == JUMPDEST then m'
      else if op == GAS then m'.(stack := Push(env.gas % WORD_SIZE, m.stack))
      else if op == CALLDATASIZE then m'.(stack := Push(|env.calldata|, m.stack))
      else if op == RETURNDATASIZE then m'.(stack := Push(|m.returnData|, m.stack))
      else
        match m.stack
        case Empty => Fail(m)
        case Push(a, rest) =>
          if op == CALLDATALOAD then m'.(stack := Push(Value(Slice(env.calldata, a, 32)), rest))
          else if op == JUMP then JumpTo(env, m, a, rest)
          else Step2(env, m, m', op, a, rest)
  }

  /** Instructions with at least two operands, `a` on top. */
  function Step2(env: Env, m: Machine, m': Machine, op: Byte, a: nat, stack: Stack): Machine
    requires m.Running? && m'.Running?
  {
    match stack
    case Empty => Fail(m)
    case Push(b, rest) =>
      if op == LT then m'.(stack := Push(if a < b then 1 else 0, rest))
      else if op == EQ then m'.(stack := Push(if a == b then 1 else 0, rest))
      else if op == SHL then m'.(stack := Push(ShiftLeft(b, a), rest))
      else if op == SHR then m'.(stack := Push(ShiftRight(b, a), rest))
      else if op == MSTORE then m'.(stack := rest, memory := Write(m.memory, a, Encode(b, 32)))
      else if op == JUMPI then (if b != 0 then JumpTo(env, m, a, rest) else m'.(stack := rest))
      else if op == RETURN then Halted(Returned(Slice(m.memory, a, b)), m.calls)
      else if op == REVERT then Halted(Reverted(Slice(m.memory, a, b)), m.calls)
      else StepMany(env, m, m', op, a, b, rest)
  }

  function StepMany(env: Env, m: Machine, m': Machine, op: Byte, a: nat, b: nat, stack: Stack): Machine
    requires m.Running? && m'.Running?
  {
    match stack
    case Push(c, rest) =>
      if op == CALLDATACOPY then
        m'.(stack := rest, memory := Write(m.memory, a, Slice(env.calldata, b, c)))
      else if op == RETURNDATACOPY then
        if b + c <= |m.returnData|
        then m'.(stack := rest, memory := Write(m.memory, a, m.returnData[b..b + c]))
        else Fail(m)
      else if op == DELEGATECALL then DelegateCall(env, m, m', b, c, rest)
      else Fail(m)
    case Empty => Fail(m)
  }

  /** DELEGATECALL with the gas operand already taken: address, then input, then output range. */
  function DelegateCall(env: Env, m: Machine, m': Machine, address: nat, inputAt: nat, stack: Stack): Machine
    requires m.Running? && m'.Running?
  {
    match stack
    case Push(inputSize, Push(outputAt, Push(outputSize, rest))) =>
      var input := Slice(m.memory, inputAt, inputSize);
      var answer := env.callee(address, input);
      var copied := if outputSize <= |answer.output| then answer.output[..outputSize] else answer.output;
      m'.(stack := Push(if answer.success then 1 else 0, rest),
          memory := Write(m.memory, outputAt, copied),
          returnData := answer.output,
          calls := m.calls + [Call(address, input)])
    case _ => Fail(m)
  }

  function Start(): Machine {
    Running(0, Empty, [], [], [])
  }

  function Run(env: Env, m: Machine, steps: nat): Machine
    decreases steps
  {
    if steps == 0 then m else Run(env, Step(env, m), steps - 1)
  }

  ghost predicate Reaches(env: Env, m: Machine, m': Machine) {
    exists n: nat :: Run(env, m, n) == m'
  }

  lemma {:induction false} RunMore(env: Env, m: Machine, n: nat)
    ensures Run(env, m, n + 1) == Step(env, Run(env, m, n))
    decreases n
  {
    if n > 0 {
      RunMore(env, Step(env, m), n - 1);
    }
  }

  lemma {:induction false} Here(env: Env, m: Machine)
    ensures Reaches(env, m, m)
  {
    assert Run(env, m, 0) == m;
  }

  /** One more step. */
  lemma {:induction false} Then(env: Env, m: Machine, m': Machine)
    requires Reaches(env, m, m')
    ensures Reaches(env, m, Step(env, m'))
  {
    var n: nat :| Run(env, m, n) == m';
    RunMore(env, m, n);
  }

  lemma {:induction false} RunAdd(env: Env, m: Machine, a: nat, b: nat)
    ensures Run(env, m, a + b) == Run(env, Run(env, m, a), b)
    decreases a
  {
    if a > 0 {
      RunAdd(env, Step(env, m), a - 1, b);
    }
  }

  lemma {:induction false} ReachesTrans(env: Env, m: Machine, m': Machine, m'': Machine)
    requires Reaches(env, m, m') && Reaches(env, m', m'')
    ensures Reaches(env, m, m'')
  {
    var a: nat :| Run(env, m, a) == m';
    var b: nat :| Run(env, m', b) == m'';
    RunAdd(env, m, a, b);
  }

  lemma {:induction false} HaltedStays(env: Env, m: Machine, n: nat)
    requires m.Halted?
    ensures Run(env, m, n) == m
  {
    if n > 0 {
      HaltedStays(env, m, n - 1);
    }
  }

  /** A run ends in one way only, and stays there. */
  lemma {:induction false} OneEnd(env: Env, m: Machine, end: Machine, n: nat)
    requires Reaches(env, m, end) && end.Halted?
    ensures Run(env, m, n).Halted? ==> Run(env, m, n) == end
  {
    var k: nat :| Run(env, m, k) == end;
    if n <= k {
      RunAdd(env, m, n, k - n);
      if Run(env, m, n).Halted? {
        HaltedStays(env, Run(env, m, n), k - n);
      }
    } else {
      RunAdd(env, m, k, n - k);
      HaltedStays(env, end, n - k);
    }
  }
}
