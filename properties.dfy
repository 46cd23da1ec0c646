/**
 * Properties of the reference semantics: the instruction encoding round
 * trip and its byte consumption, truncated programs, the effect and frame of
 * every instruction, and the run loop.
 */
module Properties {
  import opened Bytes
  import opened Wrappers
  import LittleEndian
  import Metadata
  import Instruction
  import Memory
  import opened Semantics

  /** Fetching one byte gives that byte. */
  lemma FetchedByte(p: seq<byte>, at: nat)
    requires at < |p|
    ensures Fetched(p, at, 1) < 0x100 && Fetched(p, at, 1) as byte == p[at]
  {
    assert p[at..at + 1][1..] == [];
  }

  /** Fetching the encoding of a value gives the value. */
  lemma FetchedEncoded(p: seq<byte>, at: nat, v: nat, n: nat)
    requires v < LittleEndian.Pow256(n)
    requires at + n <= |p| && p[at..at + n] == LittleEndian.Encode(v, n)
    ensures Fetched(p, at, n) == v
  {
    LittleEndian.DecodeEncode(v, n);
  }

  /** The bytes of the middle part of a concatenation. */
  lemma Middle(prefix: seq<byte>, e: seq<byte>, suffix: seq<byte>, a: nat, b: nat)
    requires a <= b <= |e|
    ensures (prefix + e + suffix)[|prefix| + a..|prefix| + b] == e[a..b]
  {
  }

  /** Decoding an encoded instruction, wherever it sits in a program, gives it back. */
  lemma DecodeEncode(i: Instr, prefix: seq<byte>, suffix: seq<byte>)
    requires WellFormed(i)
    ensures DecodeAt(prefix + Encode(i) + suffix, |prefix|) == Ok((i, |prefix| + Size(i)))
  {
    var p := prefix + Encode(i) + suffix;
    var at := |prefix|;
    FetchedByte(p, at);
    assert p[at] == Instruction.ToByte(OpcodeOf(i));
    Instruction.FromToByte(OpcodeOf(i));
    assert DecodeAt(p, at) == DecodeOperands(p, OpcodeOf(i), at + 1);
    match i
    case Operate(_, _, _, _) => DecodeEncodeOperate(i, prefix, suffix);
    case Print(_, _) => DecodeEncodePrint(i, prefix, suffix);
    case _ => DecodeEncodeJump(i, prefix, suffix);
  }

  lemma DecodeEncodeOperate(i: Instr, prefix: seq<byte>, suffix: seq<byte>)
    requires i.Operate? && WellFormed(i)
    ensures DecodeOperands(prefix + Encode(i) + suffix, i.opcode, |prefix| + 1) == Ok((i, |prefix| + Size(i)))
  {
    var p := prefix + Encode(i) + suffix;
    var at := |prefix|;
    assert |p| >= at + Size(i);
    assert Fetched(p, at + 1, 1) as byte == Metadata.New(i.pod, Some(ModeOf(i.source))) by {
      FetchedByte(p, at + 1);
    }
    assert Fetched(p, at + 2, ADDRESS_WIDTH) == i.dst by {
      LittleEndian.Pow256Widths();
      Middle(prefix, Encode(i), suffix, 2, 2 + ADDRESS_WIDTH);
      FetchedEncoded(p, at + 2, i.dst, ADDRESS_WIDTH);
    }
    DecodeEncodeSource(i, prefix, suffix);
  }

  lemma DecodeEncodeSource(i: Instr, prefix: seq<byte>, suffix: seq<byte>)
    requires i.Operate? && WellFormed(i)
    ensures DecodeSource(prefix + Encode(i) + suffix, i.opcode, i.pod, ModeOf(i.source), i.dst, |prefix| + 2 + ADDRESS_WIDTH)
         == Ok((i, |prefix| + Size(i)))
  {
    var p := prefix + Encode(i) + suffix;
    var operands := |prefix| + 2 + ADDRESS_WIDTH;
    assert |p| >= |prefix| + Size(i);
    match i.source {
      case Imm(v) =>
        var width := Metadata.Width(i.pod);
        Middle(prefix, Encode(i), suffix, 2 + ADDRESS_WIDTH, 2 + ADDRESS_WIDTH + width);
        FetchedEncoded(p, operands, v, width);
      case Abs(src) =>
        LittleEndian.Pow256Widths();
        Middle(prefix, Encode(i), suffix, 2 + ADDRESS_WIDTH, 2 + 2 * ADDRESS_WIDTH);
        FetchedEncoded(p, operands, src, ADDRESS_WIDTH);
    }
  }

  lemma DecodeEncodePrint(i: Instr, prefix: seq<byte>, suffix: seq<byte>)
    requires i.Print?
    ensures DecodeOperands(prefix + Encode(i) + suffix, Instruction.Print, |prefix| + 1) == Ok((i, |prefix| + Size(i)))
  {
    var p := prefix + Encode(i) + suffix;
    var at := |prefix|;
    assert |p| >= at + Size(i);
    assert Fetched(p, at + 1, 1) as byte == Metadata.New(i.pod, None) by {
      FetchedByte(p, at + 1);
    }
    assert Fetched(p, at + 2, ADDRESS_WIDTH) == i.addr by {
      LittleEndian.Pow256Widths();
      Middle(prefix, Encode(i), suffix, 2, 2 + ADDRESS_WIDTH);
      FetchedEncoded(p, at + 2, i.addr, ADDRESS_WIDTH);
    }
  }

  lemma DecodeEncodeJump(i: Instr, prefix: seq<byte>, suffix: seq<byte>)
    requires i.Jump? || i.JumpIfEqual? || i.JumpIfLessThan?
    ensures DecodeOperands(prefix + Encode(i) + suffix, OpcodeOf(i), |prefix| + 1) == Ok((i, |prefix| + Size(i)))
  {
    var p := prefix + Encode(i) + suffix;
    var at := |prefix| + 1;
    assert Size(i) == 1 + TARGET_WIDTH && |p| >= at + TARGET_WIDTH;
    assert Fetched(p, at, TARGET_WIDTH) == i.target by {
      LittleEndian.Pow256Widths();
      Middle(prefix, Encode(i), suffix, 1, 1 + TARGET_WIDTH);
      FetchedEncoded(p, at, i.target, TARGET_WIDTH);
    }
    assert DecodeTarget(p, OpcodeOf(i), at) == Ok((i, at + TARGET_WIDTH));
  }

  /**
   * What a successful decode of an operand instruction read first: the metadata byte
   * (a valid Pod) and the 4-byte `dst`.
   */
  lemma DecodedOperate(program: seq<byte>, op: OperandOpcode, at: nat)
    requires DecodeOperands(program, op, at).Ok?
    ensures at + 1 + ADDRESS_WIDTH <= |program|
    ensures var metadata := Fetched(program, at, 1) as byte;
            var i := DecodeOperands(program, op, at).value.0;
            && Metadata.HasPod(metadata)
            && i.Operate? && i.opcode == op && i.pod == Metadata.PodOf(metadata)
            && i.dst == Fetched(program, at + 1, ADDRESS_WIDTH)
            && ModeOf(i.source) == Metadata.AddressingModeOf(metadata)
  {
    LittleEndian.Pow256Widths();
  }

  /** The immediate form: the operand is the next `width(pod)` bytes. */
  lemma DecodedImmediate(program: seq<byte>, op: OperandOpcode, at: nat)
    requires DecodeOperands(program, op, at).Ok?
    requires DecodeOperands(program, op, at).value.0.source.Imm?
    ensures var i := DecodeOperands(program, op, at).value.0;
            var next := DecodeOperands(program, op, at).value.1;
            var operand := at + 1 + ADDRESS_WIDTH;
            next == operand + Metadata.Width(i.pod) <= |program| &&
            i.source.value == Fetched(program, operand, Metadata.Width(i.pod))
  {
    LittleEndian.Pow256Widths();
  }

  /** The memory form: the operand is a 4-byte source address. */
  lemma DecodedAbsolute(program: seq<byte>, op: OperandOpcode, at: nat)
    requires DecodeOperands(program, op, at).Ok?
    requires DecodeOperands(program, op, at).value.0.source.Abs?
    ensures var i := DecodeOperands(program, op, at).value.0;
            var next := DecodeOperands(program, op, at).value.1;
            var operand := at + 1 + ADDRESS_WIDTH;
            next == operand + ADDRESS_WIDTH <= |program| &&
            i.source.src == Fetched(program, operand, ADDRESS_WIDTH)
  {
    LittleEndian.Pow256Widths();
  }

  /** A jump decodes to its 8-byte target. */
  lemma DecodedJump(program: seq<byte>, op: Instruction.Opcode, at: nat)
    requires op.Jump? || op.JumpIfEqual? || op.JumpIfLessThan?
    requires DecodeOperands(program, op, at).Ok?
    ensures var (i, next) := DecodeOperands(program, op, at).value;
            && next == at + TARGET_WIDTH <= |program|
            && OpcodeOf(i) == op
            && (i.Jump? || i.JumpIfEqual? || i.JumpIfLessThan?)
            && i.target == Fetched(program, at, TARGET_WIDTH)
  {
    LittleEndian.Pow256Widths();
  }

  /** Print decodes to its metadata byte (only the Pod is used) and a 4-byte address. */
  lemma DecodedPrint(program: seq<byte>, at: nat)
    requires DecodeOperands(program, Instruction.Print, at).Ok?
    ensures var (i, next) := DecodeOperands(program, Instruction.Print, at).value;
            var metadata := Fetched(program, at, 1) as byte;
            && next == at + 1 + ADDRESS_WIDTH <= |program|
            && Metadata.HasPod(metadata)
            && i == Print(Metadata.PodOf(metadata), Fetched(program, at + 1, ADDRESS_WIDTH))
  {
    LittleEndian.Pow256Widths();
  }

  /**
   * A step that succeeds read a valid opcode byte at the counter, decoded the rest of
   * the instruction after it, and ran it with the counter past the instruction.
   */
  lemma StepDecodes(program: seq<byte>, s: State)
    requires Step(program, s).Ok?
    ensures s.counter + 1 <= |program|
    ensures var code := Fetched(program, s.counter, 1);
            && code < 0x100
            && Instruction.IsOpcode(code as byte)
            && var r := DecodeOperands(program, Instruction.FromByte(code as byte), s.counter + 1);
               && r.Ok?
               && Exec(r.value.0, s.(counter := r.value.1)) == Step(program, s)
  {
    LittleEndian.Pow256Widths();
  }

  /** A program that ends inside an instruction faults with UnexpectedEndOfProgram. */
  lemma TruncatedFaults(i: Instr, prefix: seq<byte>, k: nat)
    requires WellFormed(i) && k < Size(i)
    ensures DecodeAt(prefix + Encode(i)[..k], |prefix|) == Err(UnexpectedEndOfProgram)
  {
    var p := prefix + Encode(i)[..k];
    var at := |prefix|;
    if k > 0 {
      assert p[at] == Instruction.ToByte(OpcodeOf(i));
      FetchedByte(p, at);
      Instruction.FromToByte(OpcodeOf(i));
      assert DecodeAt(p, at) == DecodeOperands(p, OpcodeOf(i), at + 1);
      if k > 1 && !(i.Jump? || i.JumpIfEqual? || i.JumpIfLessThan?) {
        TruncatedOperands(i, prefix, k);
      }
    }
  }

  /** The truncation case past the metadata byte of an Operate or Print instruction. */
  lemma TruncatedOperands(i: Instr, prefix: seq<byte>, k: nat)
    requires WellFormed(i) && (i.Operate? || i.Print?) && 1 < k < Size(i)
    ensures DecodeOperands(prefix + Encode(i)[..k], OpcodeOf(i), |prefix| + 1) == Err(UnexpectedEndOfProgram)
  {
    var p := prefix + Encode(i)[..k];
    var at := |prefix|;
    var metadata := if i.Operate? then Metadata.New(i.pod, Some(ModeOf(i.source))) else Metadata.New(i.pod, None);
    assert Fetched(p, at + 1, 1) as byte == metadata by {
      assert p[at + 1] == Encode(i)[1];
      FetchedByte(p, at + 1);
    }
  }

  /** Move stores the operand (the immediate, or the source value read before the write) at dst. */
  lemma MoveStores(pod: Metadata.Pod, dst: Address, source: Source, s: State)
    requires WellFormed(Operate(Instruction.Move, pod, dst, source))
    ensures var r := Exec(Operate(Instruction.Move, pod, dst, source), s);
            var operand := OperandValue(s.mem, pod, source);
            var width := Metadata.Width(pod);
            && (r.Ok? <==> operand.Ok? && dst + width <= |s.mem|)
            && (r.Ok? ==>
                  && Memory.Read(r.value.mem, dst, width) == operand.value
                  && Memory.SameOutside(s.mem, r.value.mem, dst, width)
                  && r.value.counter == s.counter
                  && r.value.comparison == s.comparison
                  && r.value.output == s.output)
  {
  }

  /** Add, Subtract, Multiply and Divide set dst to `dst op operand` and change nothing else. */
  lemma ArithmeticUpdatesDst(op: OperandOpcode, pod: Metadata.Pod, dst: Address, source: Source, s: State)
    requires IsArithmetic(op) && Metadata.IsInteger(pod)
    requires WellFormed(Operate(op, pod, dst, source))
    ensures var r := Exec(Operate(op, pod, dst, source), s);
            var operand := OperandValue(s.mem, pod, source);
            var width := Metadata.Width(pod);
            && (r.Ok? <==> operand.Ok? && dst + width <= |s.mem| && !(op.Divide? && operand.value == 0))
            && (r.Ok? ==>
                  && Memory.Read(r.value.mem, dst, width)
                     == Arithmetic(op, Memory.Read(s.mem, dst, width), operand.value, LittleEndian.Pow256(width))
                  && Memory.SameOutside(s.mem, r.value.mem, dst, width)
                  && r.value.counter == s.counter
                  && r.value.comparison == s.comparison
                  && r.value.output == s.output)
  {
  }

  /** An integer division by zero faults rather than writing anything. */
  lemma DivideByZeroFaults(pod: Metadata.Pod, dst: Address, s: State)
    requires Metadata.IsInteger(pod) && dst + Metadata.Width(pod) <= |s.mem|
    ensures Exec(Operate(Instruction.Divide, pod, dst, Imm(0)), s) == Err(DivisionByZero)
  {
  }

  /** Compare sets the register to `partial_cmp(dst, operand)` and changes nothing else. */
  lemma CompareSetsRegister(pod: Metadata.Pod, dst: Address, source: Source, s: State)
    requires Metadata.IsInteger(pod)
    requires WellFormed(Operate(Instruction.Compare, pod, dst, source))
    ensures var r := Exec(Operate(Instruction.Compare, pod, dst, source), s);
            var operand := OperandValue(s.mem, pod, source);
            var width := Metadata.Width(pod);
            && (r.Ok? <==> operand.Ok? && dst + width <= |s.mem|)
            && (r.Ok? ==> r.value == s.(comparison := Some(Cmp(Memory.Read(s.mem, dst, width), operand.value))))
  {
  }

  /** Compare then JumpIfLessThan: the jump is taken iff dst was below the operand. */
  lemma CompareThenJumpIfLessThan(pod: Metadata.Pod, dst: Address, source: Source, target: Target, s: State)
    requires Metadata.IsInteger(pod)
    requires WellFormed(Operate(Instruction.Compare, pod, dst, source))
    requires Exec(Operate(Instruction.Compare, pod, dst, source), s).Ok?
    ensures var t := Exec(Operate(Instruction.Compare, pod, dst, source), s).value;
            var u := Exec(JumpIfLessThan(target), t);
            var width := Metadata.Width(pod);
            var taken := Memory.Read(s.mem, dst, width) < OperandValue(s.mem, pod, source).value;
            u.Ok? && u.value.counter == (if taken then target else s.counter)
  {
  }

  /** Compare then JumpIfEqual: the jump is taken iff dst equalled the operand. */
  lemma CompareThenJumpIfEqual(pod: Metadata.Pod, dst: Address, source: Source, target: Target, s: State)
    requires Metadata.IsInteger(pod)
    requires WellFormed(Operate(Instruction.Compare, pod, dst, source))
    requires Exec(Operate(Instruction.Compare, pod, dst, source), s).Ok?
    ensures var t := Exec(Operate(Instruction.Compare, pod, dst, source), s).value;
            var u := Exec(JumpIfEqual(target), t);
            var width := Metadata.Width(pod);
            var taken := Memory.Read(s.mem, dst, width) == OperandValue(s.mem, pod, source).value;
            u.Ok? && u.value.counter == (if taken then target else s.counter)
  {
  }

  /** Jumps only rewrite the counter: to the target when taken, otherwise left past the operand. */
  lemma JumpsOnlyMoveCounter(i: Instr, s: State)
    requires i.Jump? || i.JumpIfEqual? || i.JumpIfLessThan?
    ensures var r := Exec(i, s);
            var taken := i.Jump? || (i.JumpIfEqual? && s.comparison == Some(Equal))
                         || (i.JumpIfLessThan? && s.comparison == Some(Less));
            && r.Ok?
            && r.value.counter == (if taken then i.target else s.counter)
            && r.value.mem == s.mem
            && r.value.comparison == s.comparison
            && r.value.output == s.output
  {
  }

  /** Print emits the value at the address and changes no VM field. */
  lemma PrintEmits(pod: Metadata.Pod, addr: Address, s: State)
    ensures var r := Exec(Print(pod, addr), s);
            var width := Metadata.Width(pod);
            && (r.Ok? <==> addr + width <= |s.mem|)
            && (r.Ok? ==> r.value == s.(output := s.output + [Printed(pod, Memory.Read(s.mem, addr, width))]))
  {
  }

  /**
   * A step moves the counter to the target of a taken jump, and otherwise just
   * past the instruction it decoded (a conditional jump not taken falls through).
   */
  lemma StepConsumesInstruction(program: seq<byte>, s: State)
    requires Step(program, s).Ok?
    ensures var (i, next) := DecodeAt(program, s.counter).value;
            var taken := i.Jump? || (i.JumpIfEqual? && s.comparison == Some(Equal))
                         || (i.JumpIfLessThan? && s.comparison == Some(Less));
            && next == s.counter + Size(i) <= |program|
            && Step(program, s).value.counter == (if taken then i.target else next)
  {
  }

  /** One step of Run: a live state with k + 1 fuel runs on from its successor with k. */
  lemma RunUnfold(program: seq<byte>, s: State, k: nat)
    requires s.counter < |program|
    ensures Step(program, s).Err? ==> Run(program, s, k + 1) == Faulted(Step(program, s).error, s)
    ensures Step(program, s).Ok? ==> Run(program, s, k + 1) == Run(program, Step(program, s).value, k)
  {
  }

  /** A run that does not fault takes its first step successfully, while the counter is live and fuel remains. */
  lemma RunLive(program: seq<byte>, s: State, k: nat) returns (next: State)
    requires s.counter < |program| && k > 0 && !Run(program, s, k).Faulted?
    ensures Step(program, s) == Ok(next) && Run(program, s, k) == Run(program, next, k - 1)
  {
    RunUnfold(program, s, k - 1);
    next := Step(program, s).value;
  }

  /** A run with the counter past the end halts at once, and one without fuel stops where it is. */
  lemma RunStopped(program: seq<byte>, s: State, fuel: nat)
    requires s.counter >= |program| || fuel == 0
    ensures Run(program, s, fuel).state == s
    ensures Run(program, s, fuel).Halted? <==> s.counter >= |program|
  {
  }

  /** Either fuel ran out, or a run given the larger budget `total` yields the very same outcome. */
  predicate Extends(program: seq<byte>, s: State, fuel: nat, total: nat)
  {
    Run(program, s, fuel).OutOfFuel? || Run(program, s, total) == Run(program, s, fuel)
  }

  /** The inductive step of RunExtends: Extends carries back over one successful step. */
  lemma ExtendsBack(program: seq<byte>, s: State, next: State, k: nat, j: nat)
    requires s.counter < |program| && Step(program, s) == Ok(next)
    requires Extends(program, next, k, j)
    ensures Extends(program, s, k + 1, j + 1)
  {
    RunUnfold(program, s, k);
    RunUnfold(program, s, j);
  }

  /** A run that stops at once (halted, out of fuel or faulting) satisfies Extends. */
  lemma ExtendsStopped(program: seq<byte>, s: State, fuel: nat, total: nat)
    requires fuel <= total
    requires s.counter >= |program| || fuel == 0 || Step(program, s).Err?
    ensures Extends(program, s, fuel, total)
  {
    if s.counter < |program| && fuel > 0 {
      RunUnfold(program, s, fuel - 1);
      RunUnfold(program, s, total - 1);
    }
  }

  /**
   * Once a run stops (halted or faulted), a larger fuel budget changes nothing:
   * unless fuel ran out, Run with `total >= fuel` returns the same outcome.
   */
  lemma {:induction false} RunMonotone(program: seq<byte>, s: State, fuel: nat, total: nat)
    requires fuel <= total
    ensures Extends(program, s, fuel, total)
    decreases fuel, 1
  {
    if s.counter < |program| && fuel > 0 && Step(program, s).Ok? {
      RunMonotoneFrom(program, s, Step(program, s).value, fuel, total, fuel - 1, total - 1);
    } else {
      ExtendsStopped(program, s, fuel, total);
    }
  }

  lemma {:induction false} RunMonotoneFrom(program: seq<byte>, s: State, next: State, fuel: nat, total: nat, k: nat, j: nat)
    requires s.counter < |program| && Step(program, s) == Ok(next)
    requires fuel == k + 1 && total == j + 1 && k <= j
    ensures Extends(program, s, fuel, total)
    decreases fuel, 0
  {
    RunMonotone(program, next, k, j);
    ExtendsBack(program, s, next, k, j);
  }
}
