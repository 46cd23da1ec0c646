/**
 * The interpreter of `src/vm.rs`: a program, a program counter, a byte stack and a
 * comparison register, all updated in place by `execute`.  Every method is proved
 * against the functional reference in module Semantics: `Execute` performs exactly
 * one `Semantics.Step`, `Interpret` performs `Semantics.Run`.
 */
module Machine {
  import opened Bytes
  import opened Wrappers
  import LittleEndian
  import Metadata
  import Instruction
  import Memory
  import Semantics
  import Properties

  class VM {
    const program: seq<byte>
    var counter: nat
    const stack: Memory.Stack
    var comparison: Option<Semantics.Ordering>
    /** What `print` has written to standard output so far, oldest first. */
    ghost var output: seq<Semantics.Printed>

    /** The machine state as a value of the functional reference. */
    ghost function Snapshot(): Semantics.State
      reads this, stack.bytes
    {
      Semantics.State(counter, stack.bytes[..], comparison, output)
    }

    /** `VM::new`: the counter at the start, a zeroed stack, no comparison yet. */
    constructor (program: seq<byte>, stackSize: nat)
      ensures this.program == program
      ensures fresh(stack.bytes)
      ensures Snapshot() == Semantics.Init(stackSize)
    {
      this.program := program;
      counter := 0;
      stack := new Memory.Stack(stackSize);
      comparison := None;
      output := [];
    }

    /**
     * `fetch::<T>` for a `T` of `n` bytes: the little-endian value of the next `n`
     * program bytes; the counter moves past exactly those bytes.
     */
    method Fetch(n: nat) returns (v: nat)
      requires counter + n <= |program|
      modifies this`counter
      ensures counter == old(counter) + n
      ensures v == LittleEndian.Decode(program[old(counter)..counter])
      ensures v == Semantics.Fetched(program, old(counter), n)
    {
      v := LittleEndian.Decode(program[counter..counter + n]);
      counter := counter + n;
    }

    // -------------------------------------------------------------------
    // The per-instruction helpers.  Their preconditions are the
    // `debug_assert`s of `read_at`/`write_at`, a non-zero divisor, and an
    // unsigned Pod for the arithmetic and comparisons.

    /** `move_imm`: store `imm` at `dst`; no other stack byte changes. */
    method MoveImm(pod: Metadata.Pod, dst: Semantics.Address, imm: nat)
      requires dst + Metadata.Width(pod) <= stack.bytes.Length
      requires imm < LittleEndian.Pow256(Metadata.Width(pod))
      modifies stack.bytes
      ensures stack.bytes[..] == Memory.Write(old(stack.bytes[..]), dst, Metadata.Width(pod), imm)
    {
      stack.WriteAt(dst, Metadata.Width(pod), imm);
    }

    /** `move`: copy the value at `src` (read before the store) to `dst`. */
    method Move(pod: Metadata.Pod, dst: Semantics.Address, src: Semantics.Address)
      requires dst + Metadata.Width(pod) <= stack.bytes.Length
      requires src + Metadata.Width(pod) <= stack.bytes.Length
      modifies stack.bytes
      ensures var w := Metadata.Width(pod);
              stack.bytes[..] == Memory.Write(old(stack.bytes[..]), dst, w, Memory.Read(old(stack.bytes[..]), src, w))
    {
      var val := stack.ReadAt(src, Metadata.Width(pod));
      MoveImm(pod, dst, val);
    }

    /** `add_imm`: `dst := dst + imm`, wrapping at the Pod's width. */
    method AddImm(pod: Metadata.Pod, dst: Semantics.Address, imm: nat)
      requires Metadata.IsInteger(pod)
      requires dst + Metadata.Width(pod) <= stack.bytes.Length
      requires imm < LittleEndian.Pow256(Metadata.Width(pod))
      modifies stack.bytes
      ensures var w := Metadata.Width(pod);
              var m := LittleEndian.Pow256(w);
              stack.bytes[..] == Memory.Write(old(stack.bytes[..]), dst, w,
                                              Semantics.WrappingAdd(Memory.Read(old(stack.bytes[..]), dst, w), imm, m))
    {
      var w := Metadata.Width(pod);
      var val := stack.ReadAt(dst, w);
      MoveImm(pod, dst, Semantics.WrappingAdd(val, imm, LittleEndian.Pow256(w)));
    }

    /** `add`: `dst := dst + src`, the source read first. */
    method Add(pod: Metadata.Pod, dst: Semantics.Address, src: Semantics.Address)
      requires Metadata.IsInteger(pod)
      requires dst + Metadata.Width(pod) <= stack.bytes.Length
      requires src + Metadata.Width(pod) <= stack.bytes.Length
      modifies stack.bytes
      ensures var w := Metadata.Width(pod);
              var m := LittleEndian.Pow256(w);
              var before := old(stack.bytes[..]);
              stack.bytes[..] == Memory.Write(before, dst, w,
                                              Semantics.WrappingAdd(Memory.Read(before, dst, w), Memory.Read(before, src, w), m))
    {
      var val := stack.ReadAt(src, Metadata.Width(pod));
      AddImm(pod, dst, val);
    }

    /** `sub_imm`: `dst := dst - imm`, wrapping at the Pod's width. */
    method SubImm(pod: Metadata.Pod, dst: Semantics.Address, imm: nat)
      requires Metadata.IsInteger(pod)
      requires dst + Metadata.Width(pod) <= stack.bytes.Length
      requires imm < LittleEndian.Pow256(Metadata.Width(pod))
      modifies stack.bytes
      ensures var w := Metadata.Width(pod);
              var m := LittleEndian.Pow256(w);
              stack.bytes[..] == Memory.Write(old(stack.bytes[..]), dst, w,
                                              Semantics.WrappingSub(Memory.Read(old(stack.bytes[..]), dst, w), imm, m))
    {
      var w := Metadata.Width(pod);
      var val := stack.ReadAt(dst, w);
      MoveImm(pod, dst, Semantics.WrappingSub(val, imm, LittleEndian.Pow256(w)));
    }

    /** `sub`: `dst := dst - src`, the source read first. */
    method Sub(pod: Metadata.Pod, dst: Semantics.Address, src: Semantics.Address)
      requires Metadata.IsInteger(pod)
      requires dst + Metadata.Width(pod) <= stack.bytes.Length
      requires src + Metadata.Width(pod) <= stack.bytes.Length
      modifies stack.bytes
      ensures var w := Metadata.Width(pod);
              var m := LittleEndian.Pow256(w);
              var before := old(stack.bytes[..]);
              stack.bytes[..] == Memory.Write(before, dst, w,
                                              Semantics.WrappingSub(Memory.Read(before, dst, w), Memory.Read(before, src, w), m))
    {
      var val := stack.ReadAt(src, Metadata.Width(pod));
      SubImm(pod, dst, val);
    }

    /** `mul_imm`: `dst := dst * imm`, wrapping at the Pod's width. */
    method MulImm(pod: Metadata.Pod, dst: Semantics.Address, imm: nat)
      requires Metadata.IsInteger(pod)
      requires dst + Metadata.Width(pod) <= stack.bytes.Length
      requires imm < LittleEndian.Pow256(Metadata.Width(pod))
      modifies stack.bytes
      ensures var w := Metadata.Width(pod);
              var m := LittleEndian.Pow256(w);
              stack.bytes[..] == Memory.Write(old(stack.bytes[..]), dst, w,
                                              Semantics.WrappingMul(Memory.Read(old(stack.bytes[..]), dst, w), imm, m))
    {
      var w := Metadata.Width(pod);
      var val := stack.ReadAt(dst, w);
      MoveImm(pod, dst, Semantics.WrappingMul(val, imm, LittleEndian.Pow256(w)));
    }

    /** `mul`: `dst := dst * src`, the source read first. */
    method Mul(pod: Metadata.Pod, dst: Semantics.Address, src: Semantics.Address)
      requires Metadata.IsInteger(pod)
      requires dst + Metadata.Width(pod) <= stack.bytes.Length
      requires src + Metadata.Width(pod) <= stack.bytes.Length
      modifies stack.bytes
      ensures var w := Metadata.Width(pod);
              var m := LittleEndian.Pow256(w);
              var before := old(stack.bytes[..]);
              stack.bytes[..] == Memory.Write(before, dst, w,
                                              Semantics.WrappingMul(Memory.Read(before, dst, w), Memory.Read(before, src, w), m))
    {
      var val := stack.ReadAt(src, Metadata.Width(pod));
      MulImm(pod, dst, val);
    }

    /** `div_imm`: `dst := dst / imm`, truncating; Rust panics on a zero divisor. */
    method DivImm(pod: Metadata.Pod, dst: Semantics.Address, imm: nat)
      requires Metadata.IsInteger(pod)
      requires dst + Metadata.Width(pod) <= stack.bytes.Length
      requires 0 < imm < LittleEndian.Pow256(Metadata.Width(pod))
      modifies stack.bytes
      ensures var w := Metadata.Width(pod);
              stack.bytes[..] == Memory.Write(old(stack.bytes[..]), dst, w,
                                              Semantics.TruncatingDiv(Memory.Read(old(stack.bytes[..]), dst, w), imm))
    {
      var val := stack.ReadAt(dst, Metadata.Width(pod));
      MoveImm(pod, dst, Semantics.TruncatingDiv(val, imm));
    }

    /** `div`: `dst := dst / src`, the source read first. */
    method Div(pod: Metadata.Pod, dst: Semantics.Address, src: Semantics.Address)
      requires Metadata.IsInteger(pod)
      requires dst + Metadata.Width(pod) <= stack.bytes.Length
      requires src + Metadata.Width(pod) <= stack.bytes.Length
      requires stack.ReadAt(src, Metadata.Width(pod)) != 0
      modifies stack.bytes
      ensures var w := Metadata.Width(pod);
              var before := old(stack.bytes[..]);
              stack.bytes[..] == Memory.Write(before, dst, w,
                                              Semantics.TruncatingDiv(Memory.Read(before, dst, w), Memory.Read(before, src, w)))
    {
      var val := stack.ReadAt(src, Metadata.Width(pod));
      DivImm(pod, dst, val);
    }

    /** `cmp_imm`: the register becomes `partial_cmp(dst, imm)`; the stack is not touched. */
    method CmpImm(pod: Metadata.Pod, dst: Semantics.Address, imm: nat)
      requires Metadata.IsInteger(pod)
      requires dst + Metadata.Width(pod) <= stack.bytes.Length
      modifies this`comparison
      ensures comparison == Some(Semantics.Cmp(stack.ReadAt(dst, Metadata.Width(pod)), imm))
    {
      var val := stack.ReadAt(dst, Metadata.Width(pod));
      comparison := Some(Semantics.Cmp(val, imm));
    }

    /** `cmp`: the register becomes `partial_cmp(dst, src)`, the source read first. */
    method Cmp(pod: Metadata.Pod, dst: Semantics.Address, src: Semantics.Address)
      requires Metadata.IsInteger(pod)
      requires dst + Metadata.Width(pod) <= stack.bytes.Length
      requires src + Metadata.Width(pod) <= stack.bytes.Length
      modifies this`comparison
      ensures var w := Metadata.Width(pod);
              comparison == Some(Semantics.Cmp(stack.ReadAt(dst, w), stack.ReadAt(src, w)))
    {
      var val := stack.ReadAt(src, Metadata.Width(pod));
      CmpImm(pod, dst, val);
    }

    /** `jump`: continue at `target`. */
    method Jump(target: Semantics.Target)
      modifies this`counter
      ensures counter == target
    {
      counter := target;
    }

    /** `jump_if_equal`: continue at `target` only after an Equal comparison. */
    method JumpIfEqual(target: Semantics.Target)
      modifies this`counter
      ensures counter == if comparison == Some(Semantics.Equal) then target else old(counter)
    {
      if comparison == Some(Semantics.Equal) {
        Jump(target);
      }
    }

    /** `jump_if_lt`: continue at `target` only after a Less comparison. */
    method JumpIfLessThan(target: Semantics.Target)
      modifies this`counter
      ensures counter == if comparison == Some(Semantics.Less) then target else old(counter)
    {
      if comparison == Some(Semantics.Less) {
        Jump(target);
      }
    }

    /** `print`: emit the value at `addr`; no VM field changes. */
    method Print(pod: Metadata.Pod, addr: Semantics.Address)
      requires addr + Metadata.Width(pod) <= stack.bytes.Length
      modifies this`output
      ensures output == old(output) + [Semantics.Printed(pod, stack.ReadAt(addr, Metadata.Width(pod)))]
    {
      var val := stack.ReadAt(addr, Metadata.Width(pod));
      output := output + [Semantics.Printed(pod, val)];
    }

    // -------------------------------------------------------------------
    // `execute`, in the shape of its `handle_instruction!` arms.

    /** The immediate form of an operand instruction: the helper `op_imm(dst, imm)`. */
    method ExecuteImmediate(op: Semantics.OperandOpcode, pod: Metadata.Pod, dst: Semantics.Address, imm: nat)
      requires imm < LittleEndian.Pow256(Metadata.Width(pod))
      requires Semantics.Exec(Semantics.Operate(op, pod, dst, Semantics.Imm(imm)), Snapshot()).Ok?
      modifies this, stack.bytes
      ensures Snapshot() == Semantics.Exec(Semantics.Operate(op, pod, dst, Semantics.Imm(imm)), old(Snapshot())).value
    {
      if op.Move? {
        MoveImm(pod, dst, imm);
      } else if op.Add? {
        AddImm(pod, dst, imm);
      } else if op.Subtract? {
        SubImm(pod, dst, imm);
      } else if op.Multiply? {
        MulImm(pod, dst, imm);
      } else if op.Divide? {
        DivImm(pod, dst, imm);
      } else {
        CmpImm(pod, dst, imm);
      }
    }

    /** The memory form of an operand instruction: the helper `op::<T>(dst, src)`. */
    method ExecuteAbsolute(op: Semantics.OperandOpcode, pod: Metadata.Pod, dst: Semantics.Address, src: Semantics.Address)
      requires Semantics.Exec(Semantics.Operate(op, pod, dst, Semantics.Abs(src)), Snapshot()).Ok?
      modifies this, stack.bytes
      ensures Snapshot() == Semantics.Exec(Semantics.Operate(op, pod, dst, Semantics.Abs(src)), old(Snapshot())).value
    {
      if op.Move? {
        Move(pod, dst, src);
      } else if op.Add? {
        Add(pod, dst, src);
      } else if op.Subtract? {
        Sub(pod, dst, src);
      } else if op.Multiply? {
        Mul(pod, dst, src);
      } else if op.Divide? {
        Div(pod, dst, src);
      } else {
        Cmp(pod, dst, src);
      }
    }

    /**
     * `handle_instruction!`: fetch the metadata byte and `dst`, then the immediate or
     * the source address, and run the helper.  The counter starts just past the opcode.
     */
    method HandleInstruction(op: Semantics.OperandOpcode)
      requires Semantics.DecodeOperands(program, op, counter).Ok?
      requires var (i, next) := Semantics.DecodeOperands(program, op, counter).value;
               Semantics.Exec(i, Snapshot().(counter := next)).Ok?
      modifies this, stack.bytes
      ensures var (i, next) := Semantics.DecodeOperands(program, op, old(counter)).value;
              Snapshot() == Semantics.Exec(i, old(Snapshot()).(counter := next)).value
    {
      LittleEndian.Pow256Widths();
      ghost var at := counter;
      ghost var i := Semantics.DecodeOperands(program, op, at).value.0;
      ghost var next := Semantics.DecodeOperands(program, op, at).value.1;
      Properties.DecodedOperate(program, op, at);
      var metadata := Fetch(1);
      var pod := Metadata.PodOf(metadata as byte);
      var mode := Metadata.AddressingModeOf(metadata as byte);
      var dst := Fetch(Semantics.ADDRESS_WIDTH);
      assert Snapshot().(counter := next) == old(Snapshot()).(counter := next);
      if mode.Immediate? {
        Properties.DecodedImmediate(program, op, at);
        HandleImmediate(op, pod, dst, i, next);
      } else {
        Properties.DecodedAbsolute(program, op, at);
        HandleAbsolute(op, pod, dst, i, next);
      }
    }

    /** The `Opkind::Immediate` arm: fetch an immediate of the Pod's width and run `op_imm`. */
    method HandleImmediate(op: Semantics.OperandOpcode, pod: Metadata.Pod, dst: Semantics.Address,
                           ghost i: Semantics.Instr, ghost next: nat)
      requires next == counter + Metadata.Width(pod) <= |program|
      requires i == Semantics.Operate(op, pod, dst, Semantics.Imm(Semantics.Fetched(program, counter, Metadata.Width(pod))))
      requires Semantics.Exec(i, Snapshot().(counter := next)).Ok?
      modifies this, stack.bytes
      ensures Snapshot() == Semantics.Exec(i, old(Snapshot()).(counter := next)).value
    {
      var imm := Fetch(Metadata.Width(pod));
      ExecuteImmediate(op, pod, dst, imm);
    }

    /** The `Opkind::Memory` arm: fetch a source address and run `op::<T>`. */
    method HandleAbsolute(op: Semantics.OperandOpcode, pod: Metadata.Pod, dst: Semantics.Address,
                          ghost i: Semantics.Instr, ghost next: nat)
      requires next == counter + Semantics.ADDRESS_WIDTH <= |program|
      requires i == Semantics.Operate(op, pod, dst, Semantics.Abs(Semantics.Fetched(program, counter, Semantics.ADDRESS_WIDTH)))
      requires Semantics.Exec(i, Snapshot().(counter := next)).Ok?
      modifies this, stack.bytes
      ensures Snapshot() == Semantics.Exec(i, old(Snapshot()).(counter := next)).value
    {
      LittleEndian.Pow256Widths();
      var src := Fetch(Semantics.ADDRESS_WIDTH);
      ExecuteAbsolute(op, pod, dst, src);
    }

    /** The jump arms of `execute`: fetch the `usize` target and run the jump. */
    method ExecuteJump(op: Instruction.Opcode)
      requires op.Jump? || op.JumpIfEqual? || op.JumpIfLessThan?
      requires Semantics.DecodeOperands(program, op, counter).Ok?
      modifies this
      ensures var (i, next) := Semantics.DecodeOperands(program, op, old(counter)).value;
              Semantics.Exec(i, old(Snapshot()).(counter := next)) == Ok(Snapshot())
    {
      Properties.DecodedJump(program, op, counter);
      LittleEndian.Pow256Widths();
      var target := Fetch(Semantics.TARGET_WIDTH);
      if op.Jump? {
        Jump(target);
      } else if op.JumpIfEqual? {
        JumpIfEqual(target);
      } else {
        JumpIfLessThan(target);
      }
    }

    /** The Print arm of `execute`: fetch the metadata (its Pod) and the address, then print. */
    method ExecutePrint()
      requires Semantics.DecodeOperands(program, Instruction.Print, counter).Ok?
      requires var (i, next) := Semantics.DecodeOperands(program, Instruction.Print, counter).value;
               Semantics.Exec(i, Snapshot().(counter := next)).Ok?
      modifies this
      ensures var (i, next) := Semantics.DecodeOperands(program, Instruction.Print, old(counter)).value;
              Semantics.Exec(i, old(Snapshot()).(counter := next)) == Ok(Snapshot())
    {
      Properties.DecodedPrint(program, counter);
      LittleEndian.Pow256Widths();
      var metadata := Fetch(1);
      var pod := Metadata.PodOf(metadata as byte);
      var addr := Fetch(Semantics.ADDRESS_WIDTH);
      Print(pod, addr);
    }

    /**
     * `execute`: fetch the opcode byte and run its arm.  The source marks it `unsafe`:
     * the caller promises that the instruction at the counter decodes and runs without
     * undefined behaviour or a panic, which is the precondition that the step succeeds.
     */
    method Execute()
      requires Semantics.Step(program, Snapshot()).Ok?
      modifies this, stack.bytes
      ensures Snapshot() == Semantics.Step(program, old(Snapshot())).value
    {
      Properties.StepDecodes(program, Snapshot());
      var code := Fetch(1);
      var op := Instruction.FromByte(code as byte);
      match op {
        case Jump => ExecuteJump(op);
        case JumpIfEqual => ExecuteJump(op);
        case JumpIfLessThan => ExecuteJump(op);
        case Print => ExecutePrint();
        case _ => HandleInstruction(op);
      }
    }

    /**
     * `interpret`: execute while the counter is inside the program.  The loop of the
     * source need not terminate, so this one also stops after `fuel` instructions; the
     * caller promises no step faults, which is `unsafe` in the source.  The machine ends
     * in the state that `Semantics.Run` computes, and `halted` tells whether the counter
     * left the program.
     */
    method Interpret(fuel: nat) returns (halted: bool)
      requires !Semantics.Run(program, Snapshot(), fuel).Faulted?
      modifies this, stack.bytes
      ensures Snapshot() == Semantics.Run(program, old(Snapshot()), fuel).state
      ensures halted <==> Semantics.Run(program, old(Snapshot()), fuel).Halted?
      ensures halted <==> counter >= |program|
    {
      var remaining := fuel;
      ghost var state := Snapshot();
      ghost var outcome := Semantics.Run(program, state, fuel);
      while counter < |program| && remaining > 0
        invariant state == Snapshot()
        invariant Semantics.Run(program, state, remaining) == outcome
        decreases remaining
      {
        ghost var next := Properties.RunLive(program, state, remaining);
        Execute();
        state, remaining := next, remaining - 1;
      }
      Properties.RunStopped(program, state, remaining);
      halted := counter >= |program|;
    }
  }
}
