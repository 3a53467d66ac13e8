/**
 The BPF interpreter run on programs the verifier accepted: it stays inside the
 program, seccomp_data and the scratch memory, runs each instruction at most once,
 ends at a RET or at a division by a zero index register, and its verdict does not
 depend on what the scratch memory held at the start.
 */
module BpfRun {
  import opened Basics
  import opened Bpf
  import opened BpfVerify

  datatype Run =
    | Halted(value: U32, at: nat, last: Machine, steps: nat)   // returned from the instruction at `at`
    | FellOff(value: U32)                                      // ran past the last instruction
    | Trapped                                                  // accessed something out of range

  /** Running from instruction pc with registers and scratch memory m. */
  function Exec(program: seq<Insn>, data: seq<U8>, pc: nat, m: Machine): Run
    decreases |program| - pc
  {
    if pc >= |program| then FellOff(KILL_THREAD)
    else
      match Step(program[pc], pc, m, data)
      case Return(value) => Halted(value, pc, m, 1)
      case OutOfRange => Trapped
      case Next(pc', m') =>
        match Exec(program, data, pc', m')
        case Halted(value, at, last, steps) => Halted(value, at, last, steps + 1)
        case other => other
  }

  function Start(mem: seq<U32>): Machine { Machine(0, 0, mem) }

  /** The two places where an accepted program may end. */
  predicate MayEnd(insn: Insn, m: Machine) {
    || Class(insn.code) == RET
    || (Class(insn.code) == ALU && Op(insn.code) == DIV && Src(insn.code) == X && m.idx == 0)
  }

  /** One instruction of a well-formed program follows an edge or ends where it may. */
  lemma StepInside(program: seq<Insn>, maxInsns: nat, data: seq<U8>, pc: nat, m: Machine)
    requires WellFormed(program, maxInsns)
    requires pc < |program| && |data| == DATA_SIZE && |m.mem| == MEMWORDS
    ensures !Step(program[pc], pc, m, data).OutOfRange?
    ensures Step(program[pc], pc, m, data).Return? ==> MayEnd(program[pc], m)
    ensures Step(program[pc], pc, m, data).Next? ==>
              var next := Step(program[pc], pc, m, data);
              Edge(program, pc, next.pc) && pc < next.pc < |program| && |next.m.mem| == MEMWORDS
  {
    assert ValidInsn(program[pc], pc, |program|);
    var next := Step(program[pc], pc, m, data);
    if next.Next? {
      EdgesStayInside(program, maxInsns, pc, next.pc);
    }
  }

  /** Soundness from any point of the program. */
  lemma {:induction false} ExecSound(program: seq<Insn>, maxInsns: nat, data: seq<U8>, pc: nat, m: Machine)
    requires WellFormed(program, maxInsns)
    requires pc < |program| && |data| == DATA_SIZE && |m.mem| == MEMWORDS
    ensures var run := Exec(program, data, pc, m);
            && run.Halted?
            && run.steps <= |program| - pc
            && pc <= run.at < |program|
            && MayEnd(program[run.at], run.last)
    decreases |program| - pc
  {
    StepInside(program, maxInsns, data, pc, m);
    var next := Step(program[pc], pc, m, data);
    if next.Next? {
      ExecSound(program, maxInsns, data, next.pc, next.m);
    }
  }

  /** Every accepted program, on every input: bounded, in range, and ends only where it may. */
  lemma VerifierSound(program: seq<Insn>, maxInsns: nat, data: seq<U8>, mem: seq<U32>)
    requires Accepted(program, maxInsns)
    requires |data| == DATA_SIZE && |mem| == MEMWORDS
    ensures var run := Exec(program, data, 0, Start(mem));
            && run.Halted?
            && run.steps <= |program|
            && run.at < |program|
            && MayEnd(program[run.at], run.last)
  {
    ExecSound(program, maxInsns, data, 0, Start(mem));
  }

  // ---- Independence of the initial scratch memory ----

  /** Two machines that differ at most in scratch words outside `words`. */
  ghost predicate AgreeOn(m: Machine, m': Machine, words: set<U32>) {
    && m.acc == m'.acc && m.idx == m'.idx
    && |m.mem| == |m'.mem| == MEMWORDS
    && forall w :: w in words && w < MEMWORDS ==> m.mem[w] == m'.mem[w]
  }

  /** One instruction keeps two machines in agreement, on the words it stores too. */
  lemma StepAgrees(insn: Insn, pc: nat, m: Machine, m': Machine, data: seq<U8>, words: set<U32>)
    requires AgreeOn(m, m', words)
    requires Class(insn.code) == LD && insn.code !in {LD_W_ABS, LD_W_LEN, LD_IMM} ==> insn.k in words
    requires Class(insn.code) == LDX && insn.code !in {LDX_W_LEN, LDX_IMM} ==> insn.k in words
    requires Class(insn.code) in {ST, STX} ==> WritesWord(insn)
    ensures var a, b := Step(insn, pc, m, data), Step(insn, pc, m', data);
            && (!a.Next? || !b.Next? ==> a == b)
            && (a.Next? ==> b.Next? && a.pc == b.pc && AgreeOn(a.m, b.m, words + Stores(insn)))
  {
    assert Operand(insn, m) == Operand(insn, m');
  }

  /** The last instruction of a path of an accepted program reads only words the path stored. */
  lemma AcceptedReads(program: seq<Insn>, maxInsns: nat, path: seq<nat>)
    requires Accepted(program, maxInsns)
    requires Path(program, path) && path[|path| - 1] < |program|
    ensures var insn := program[path[|path| - 1]];
            && (Class(insn.code) == LD && insn.code !in {LD_W_ABS, LD_W_LEN, LD_IMM} ==>
                insn.k in Written(program, path))
            && (Class(insn.code) == LDX && insn.code !in {LDX_W_LEN, LDX_IMM} ==> insn.k in Written(program, path))
            && (Class(insn.code) in {ST, STX} ==> WritesWord(insn))
  {
    var pc := path[|path| - 1];
    assert ValidInsn(program[pc], pc, |program|);
    assert !ReadsUnwritten(program, path);
  }

  ghost function Verdict(run: Run): Option<U32> {
    match run
    case Halted(value, _, _, _) => Some(value)
    case FellOff(value) => Some(value)
    case Trapped => None
  }

  lemma {:induction false} ExecAgrees(program: seq<Insn>, maxInsns: nat, data: seq<U8>, path: seq<nat>, m: Machine,
                                      m': Machine)
    requires Accepted(program, maxInsns) && |data| == DATA_SIZE
    requires Path(program, path) && path[|path| - 1] < |program|
    requires AgreeOn(m, m', Written(program, path))
    ensures Verdict(Exec(program, data, path[|path| - 1], m)) == Verdict(Exec(program, data, path[|path| - 1], m'))
    decreases |program| - path[|path| - 1]
  {
    var pc := path[|path| - 1];
    AcceptedReads(program, maxInsns, path);
    StepAgrees(program[pc], pc, m, m', data, Written(program, path));
    StepInside(program, maxInsns, data, pc, m);
    var a, b := Step(program[pc], pc, m, data), Step(program[pc], pc, m', data);
    if a.Next? {
      EdgesStayInside(program, maxInsns, pc, a.pc);
      Extend(program, path, pc, a.pc);
      ExecAgrees(program, maxInsns, data, path + [a.pc], a.m, b.m);
    }
  }

  /** Two-run theorem: the verdict does not depend on the initial scratch memory. */
  lemma ScratchIndependent(program: seq<Insn>, maxInsns: nat, data: seq<U8>, mem: seq<U32>, mem': seq<U32>)
    requires Accepted(program, maxInsns)
    requires |data| == DATA_SIZE && |mem| == |mem'| == MEMWORDS
    ensures Verdict(Exec(program, data, 0, Start(mem))) == Verdict(Exec(program, data, 0, Start(mem')))
  {
    assert Path(program, [0]);
    ExecAgrees(program, maxInsns, data, [0], Start(mem), Start(mem'));
  }

  /** The verdict of an accepted program: a function of the program and seccomp_data alone. */
  ghost function Decision(program: seq<Insn>, data: seq<U8>): U32 {
    match Exec(program, data, 0, Start(seq(MEMWORDS, _ => 0)))
    case Halted(value, _, _, _) => value
    case _ => KILL_THREAD
  }

  /** The interpreter loop.  Every index into program, data and scratch memory is proved in range. */
  method Interpret(program: seq<Insn>, data: seq<U8>, ghost maxInsns: nat) returns (value: U32)
    requires WellFormed(program, maxInsns) && |data| == DATA_SIZE
    ensures value == Decision(program, data)
  {
    var accumulator: U32, index: U32 := 0, 0;
    var memory := new U32[MEMWORDS](_ => 0);
    var pc := 0;
    assert memory[..] == seq(MEMWORDS, _ => 0);
    ExecSound(program, maxInsns, data, 0, Start(memory[..]));
    while pc < |program|
      invariant Verdict(Exec(program, data, pc, Machine(accumulator, index, memory[..])))
          == Some(Decision(program, data))
      decreases |program| - pc
    {
      ghost var m := Machine(accumulator, index, memory[..]);
      StepInside(program, maxInsns, data, pc, m);
      var insn := program[pc];
      var code, operand := insn.code, if Src(insn.code) == X then index else insn.k;
      ghost var next := Step(insn, pc, m, data);
      if Class(code) == LD {
        if code == LD_W_ABS {
          accumulator := LoadWord(data, insn.k);
        } else if code == LD_W_LEN {
          accumulator := DATA_SIZE;
        } else if code == LD_IMM {
          accumulator := insn.k;
        } else {
          accumulator := memory[insn.k];
        }
      } else if Class(code) == LDX {
        if code == LDX_W_LEN {
          index := DATA_SIZE;
        } else if code == LDX_IMM {
          index := insn.k;
        } else {
          index := memory[insn.k];
        }
      } else if Class(code) == ST {
        memory[insn.k] := accumulator;
      } else if Class(code) == STX {
        memory[insn.k] := index;
      } else if Class(code) == ALU {
        var result := AluResult(Op(code), accumulator, operand);
        if result.None? { return KILL_THREAD; }
        accumulator := result.value;
      } else if Class(code) == JMP {
        if code == JMP_JA {
          pc := pc + insn.k;
        } else {
          var taken := Taken(Op(code), accumulator, operand);
          if taken.None? { return KILL_THREAD; }
          pc := pc + if taken.value then insn.jt else insn.jf;
        }
      } else if Class(code) == RET {
        return if Rval(code) == A then accumulator else insn.k;
      } else if MiscOp(code) == 0 {
        index := accumulator;
      } else {
        accumulator := index;
      }
      pc := pc + 1;
      assert next == Next(pc, Machine(accumulator, index, memory[..]));
    }
    return KILL_THREAD;
  }
}
