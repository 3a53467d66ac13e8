/**
 Classic-BPF programs of seccomp filters: the instruction encoding, what the
 structural pass of the verifier accepts, control-flow paths, and the meaning of
 one instruction.  The 32-bit registers wrap around at 2^32.
 */
module Bpf {
  import opened Basics

  type U8 = x: int | 0 <= x < 0x100
  type U16 = x: int | 0 <= x < 0x1_0000
  type U32 = x: int | 0 <= x < WORD

  const WORD: nat := 0x1_0000_0000
  const MEMWORDS: nat := 16
  const DATA_SIZE: nat := 64
  const KILL_THREAD: U32 := 0

  datatype Insn = Insn(code: U16, jt: U8, jf: U8, k: U32)

  // ---- Instruction fields (masks of the code word, written as arithmetic) ----

  function Class(code: U16): U16 { code % 8 }
  function Op(code: U16): U16 { code / 16 % 16 * 16 }
  function Src(code: U16): U16 { code / 8 % 2 * 8 }
  function Rval(code: U16): U16 { code / 8 % 4 * 8 }
  function MiscOp(code: U16): U16 { code / 8 % 32 * 8 }

  const LD: U16 := 0
  const LDX: U16 := 1
  const ST: U16 := 2
  const STX: U16 := 3
  const ALU: U16 := 4
  const JMP: U16 := 5
  const RET: U16 := 6

  const LD_W_ABS: U16 := 0x20
  const LD_W_LEN: U16 := 0x80
  const LD_IMM: U16 := 0x00
  const LD_MEM: U16 := 0x60
  const LDX_W_LEN: U16 := 0x81
  const LDX_IMM: U16 := 0x01
  const LDX_MEM: U16 := 0x61
  const ALU_NEG: U16 := 0x84
  const JMP_JA: U16 := 0x05
  const RET_K: U16 := 0x06
  const RET_A: U16 := 0x16
  const MISC_TAX: U16 := 0x07
  const MISC_TXA: U16 := 0x87

  const X: U16 := 0x08
  const A: U16 := 0x10

  const ADD: U16 := 0x00
  const SUB: U16 := 0x10
  const MUL: U16 := 0x20
  const DIV: U16 := 0x30
  const OR: U16 := 0x40
  const AND: U16 := 0x50
  const LSH: U16 := 0x60
  const RSH: U16 := 0x70
  const NEG: U16 := 0x80
  const MOD: U16 := 0x90
  const XOR: U16 := 0xa0

  const JEQ: U16 := 0x10
  const JGT: U16 := 0x20
  const JGE: U16 := 0x30
  const JSET: U16 := 0x40

  // ---- Structural rules ----

  predicate ValidLoad(code: U16, offset: U32) {
    code == LD_W_ABS && offset % 4 == 0 && offset <= DATA_SIZE - 4
  }

  predicate ValidAlu(code: U16, k: U32) {
    || code == ALU_NEG
    || (Op(code) in {ADD, SUB, MUL, OR, AND, XOR})
    || (Op(code) in {LSH, RSH} && (Src(code) == X || k < 32))
    || (Op(code) == DIV && (Src(code) == X || k != 0))
  }

  predicate ValidJump(insn: Insn, index: nat, length: nat)
    requires index < length
  {
    var remaining := length - index - 1;
    if insn.code == JMP_JA then insn.k < remaining
    else Op(insn.code) in {JEQ, JGT, JGE, JSET} && insn.jt < remaining && insn.jf < remaining
  }

  predicate ValidInsn(insn: Insn, index: nat, length: nat)
    requires index < length
  {
    var code, k := insn.code, insn.k;
    if Class(code) == LD then
      ValidLoad(code, k) || code == LD_W_LEN || code == LD_IMM || (code == LD_MEM && k < MEMWORDS)
    else if Class(code) == LDX then
      code == LDX_W_LEN || code == LDX_IMM || (code == LDX_MEM && k < MEMWORDS)
    else if Class(code) == ST || Class(code) == STX then
      code == Class(code) && k < MEMWORDS
    else if Class(code) == ALU then
      ValidAlu(code, k)
    else if Class(code) == JMP then
      ValidJump(insn, index, length)
    else if Class(code) == RET then
      code == RET_K || code == RET_A
    else
      code == MISC_TAX || code == MISC_TXA
  }

  /** What the first pass of the verifier accepts. */
  ghost predicate WellFormed(program: seq<Insn>, maxInsns: nat) {
    && 0 < |program| <= maxInsns
    && (forall i :: 0 <= i < |program| ==> ValidInsn(program[i], i, |program|))
    && Class(program[|program| - 1].code) == RET
  }

  // ---- Control flow ----

  predicate ReadsWord(insn: Insn) { insn.code == LD_MEM || insn.code == LDX_MEM }

  predicate WritesWord(insn: Insn) { insn.code == ST || insn.code == STX }

  /** The scratch words an instruction stores to. */
  function Stores(insn: Insn): set<U32> { if WritesWord(insn) then {insn.k} else {} }

  /** Control may pass from instruction i directly to instruction j. */
  predicate Edge(program: seq<Insn>, i: nat, j: nat) {
    && i < |program|
    && Class(program[i].code) != RET
    && (if program[i].code == JMP_JA then j == i + 1 + program[i].k
        else if Class(program[i].code) == JMP then j == i + 1 + program[i].jt || j == i + 1 + program[i].jf
        else j == i + 1)
  }

  /** A control-flow path starts at instruction 0 and follows edges. */
  ghost predicate Path(program: seq<Insn>, path: seq<nat>) {
    && 0 < |path|
    && path[0] == 0
    && forall n :: 0 < n < |path| ==> Edge(program, path[n - 1], path[n])
  }

  ghost predicate PathTo(program: seq<Insn>, path: seq<nat>, t: nat) {
    Path(program, path) && path[|path| - 1] == t
  }

  /** The scratch words stored along a path before its last instruction runs. */
  ghost function Written(program: seq<Insn>, path: seq<nat>): set<U32>
    requires Path(program, path)
  {
    if |path| == 1 then {}
    else
      assert Edge(program, path[|path| - 2], path[|path| - 1]);
      Written(program, path[..|path| - 1]) + Stores(program[path[|path| - 2]])
  }

  /** Some path reaches a scratch load whose word it has not stored. */
  ghost predicate ReadsUnwritten(program: seq<Insn>, path: seq<nat>) {
    && Path(program, path)
    && path[|path| - 1] < |program|
    && ReadsWord(program[path[|path| - 1]])
    && program[path[|path| - 1]].k !in Written(program, path)
  }

  ghost predicate Initialized(program: seq<Insn>) {
    forall path :: !ReadsUnwritten(program, path)
  }

  /** What the verifier accepts: well formed, and no path reads an unwritten word. */
  ghost predicate Accepted(program: seq<Insn>, maxInsns: nat) {
    WellFormed(program, maxInsns) && Initialized(program)
  }

  // ---- Meaning of one instruction ----

  datatype Machine = Machine(acc: U32, idx: U32, mem: seq<U32>)

  datatype Outcome =
    | Next(pc: nat, m: Machine)
    | Return(value: U32)
    | OutOfRange               // an access outside seccomp_data or the scratch memory

  function LoadWord(data: seq<U8>, offset: nat): U32
    requires offset + 4 <= |data|
  {
    var b0: int, b1: int, b2: int, b3: int := data[offset], data[offset + 1], data[offset + 2], data[offset + 3];
    b0 + 0x100 * b1 + 0x1_0000 * b2 + 0x100_0000 * b3
  }

  /** None stands for the interpreter's bail-out to KILL_THREAD. */
  function AluResult(op: U16, acc: U32, operand: U32): Option<U32> {
    hide BitOr, BitAnd, BitXor, ShiftLeft, ShiftRight;
    if op == ADD then Some(Wrap(acc + operand))
    else if op == SUB then Some(Wrap(acc - operand))
    else if op == MUL then Some(Wrap(acc * operand))
    else if op == DIV then if operand == 0 then None else Some(Quotient(acc, operand))
    else if op == OR then Some(BitOr(acc, operand))
    else if op == AND then Some(BitAnd(acc, operand))
    else if op == LSH then Some(if operand < 32 then ShiftLeft(acc, operand) else 0)
    else if op == RSH then Some(if operand < 32 then ShiftRight(acc, operand) else 0)
    else if op == NEG then Some(Wrap(WORD - acc))
    else if op == MOD then if operand == 0 then None else Some(Remainder(acc, operand))
    else if op == XOR then Some(BitXor(acc, operand))
    else None
  }

  function BitOr(a: U32, b: U32): U32 { ((a as bv32) | (b as bv32)) as U32 }
  function BitAnd(a: U32, b: U32): U32 { ((a as bv32) & (b as bv32)) as U32 }
  function BitXor(a: U32, b: U32): U32 { ((a as bv32) ^ (b as bv32)) as U32 }
  function ShiftLeft(a: U32, n: U32): U32 requires n < 32 { ((a as bv32) << n) as U32 }
  function ShiftRight(a: U32, n: U32): U32 requires n < 32 { ((a as bv32) >> n) as U32 }

  function Wrap(n: int): U32 { n % WORD }

  function Remainder(a: U32, b: U32): U32 requires b != 0 { a % b }

  function Quotient(a: U32, b: U32): U32
    requires b != 0
  {
    assert 0 <= a / b <= a;
    a / b
  }

  function Taken(op: U16, acc: U32, operand: U32): Option<bool> {
    if op == JEQ then Some(acc == operand)
    else if op == JGT then Some(acc > operand)
    else if op == JGE then Some(acc >= operand)
    else if op == JSET then Some(BitAnd(acc, operand) != 0)
    else None
  }

  function Operand(insn: Insn, m: Machine): U32 {
    if Src(insn.code) == X then m.idx else insn.k
  }

  function Step(insn: Insn, pc: nat, m: Machine, data: seq<U8>): Outcome {
    var code, k := insn.code, insn.k;
    if Class(code) == LD then
      if code == LD_W_ABS then
        if k + 4 <= |data| then Next(pc + 1, m.(acc := LoadWord(data, k))) else OutOfRange
      else if code == LD_W_LEN then Next(pc + 1, m.(acc := DATA_SIZE))
      else if code == LD_IMM then Next(pc + 1, m.(acc := k))
      else if k < |m.mem| then Next(pc + 1, m.(acc := m.mem[k])) else OutOfRange
    else if Class(code) == LDX then
      if code == LDX_W_LEN then Next(pc + 1, m.(idx := DATA_SIZE))
      else if code == LDX_IMM then Next(pc + 1, m.(idx := k))
      else if k < |m.mem| then Next(pc + 1, m.(idx := m.mem[k])) else OutOfRange
    else if Class(code) == ST then
      if k < |m.mem| then Next(pc + 1, m.(mem := m.mem[k := m.acc])) else OutOfRange
    else if Class(code) == STX then
      if k < |m.mem| then Next(pc + 1, m.(mem := m.mem[k := m.idx])) else OutOfRange
    else if Class(code) == ALU then
      var r := AluResult(Op(code), m.acc, Operand(insn, m));
      if r.Some? then Next(pc + 1, m.(acc := r.value)) else Return(KILL_THREAD)
    else if Class(code) == JMP then
      if code == JMP_JA then Next(pc + 1 + k, m)
      else
        var taken := Taken(Op(code), m.acc, Operand(insn, m));
        if taken.None? then Return(KILL_THREAD)
        else Next(pc + 1 + if taken.value then insn.jt else insn.jf, m)
    else if Class(code) == RET then
      Return(if Rval(code) == A then m.acc else k)
    else if MiscOp(code) == 0 then Next(pc + 1, m.(idx := m.acc))
    else Next(pc + 1, m.(acc := m.idx))
  }
}
