# hayai bytecode VM, modelled in Dafny

hayai is a small register-less bytecode virtual machine. A program is a flat
byte string. Each instruction is an opcode byte. Most instructions then carry:

- a *metadata* byte, which packs the operand type (a `Pod`: `u8`, `u16`, `u32`,
  `u64`, `f32`, `f64`) into bits 7-5 and the addressing mode (immediate or
  absolute) into bit 4;
- a 4-byte destination address;
- either an immediate value of the Pod's width or a 4-byte source address.

Jumps carry an 8-byte target instead. Print carries a metadata byte and an
address. The machine owns:

- a program counter;
- a fixed-size byte stack, read and written unaligned and little-endian;
- a comparison register set by `cmp` and read by the conditional jumps.

`execute` performs one instruction. `interpret` repeats it until the counter
leaves the program.

The model has two layers:

- **A functional reference** (`Semantics`). It defines the byte encoding of each
  instruction (`Encode`) and its decoder (`DecodeAt`). `Exec` gives the effect of
  one decoded instruction on a `State` value. `Step` is decode-then-execute, and
  `Run` is `Step` repeated with a fuel bound. A `Fault` value stands for
  undefined behaviour, for a panic, and for a float operation the model leaves out:
  - reading past the end of the program (undefined behaviour in a release build);
  - an out-of-range opcode or Pod tag (an unchecked transmute: undefined behaviour);
  - a stack access out of bounds (undefined behaviour in a release build);
  - integer division by zero (a panic);
  - arithmetic or comparison on a float Pod (defined IEEE 754 behaviour in the
    code, not modelled here).
- **The imperative machine** (`Machine.VM`). It is a class with the same fields
  as `VM` in `src/vm.rs`. The stack is a `Memory.Stack` over an `array<byte>`,
  and every helper of `vm.rs` is a method that updates those fields in place.
  - `Execute` is proved to perform exactly one `Semantics.Step`.
  - `Interpret` is proved to perform `Semantics.Run`.
  - The `unsafe` contract of the Rust code becomes the precondition that the
    reference does not fault.

Properties proved about the reference:

- The encoder/decoder round trip.
- A truncated instruction faults.
- The effect of each instruction: what it writes, and that nothing else changes.
- The compare-then-jump protocol.
- Fuel monotonicity of `Run`.

The benchmark program of `benches/bench.rs` is assembled and proved to leave
the native `fibonacci(floor)` result in its first cell for every admissible
floor. For the benchmark's own floor of 255 that result is 377, and the
imperative VM reproduces it (`Fibonacci.Bench`).

Metadata bytes are unsigned, so `metadata >> 5` is written `metadata / 32` and
`(metadata & 0x10) >> 4` is written `metadata / 16 % 2`.

## Model

| member | source | states |
|---|---|---|
| LittleEndian.Decode | src/vm/stack.rs:19-26 | the value read from `n` bytes is below 256^n |
| LittleEndian.DecodeEncode | src/vm/stack.rs:29-36 | writing a value as `n` little-endian bytes and reading it back gives the value |
| LittleEndian.EncodeDecode | src/vm/stack.rs:19-36 | re-encoding the value read from any byte string gives back those bytes |
| LittleEndian.EncodeInjective | src/vm/stack.rs:29-36 | two in-range values with the same byte image are equal |
| LittleEndian.Pow256Widths | src/vm/metadata.rs:6-13 | the value ranges of `u8`, `u16`, `u32`, `u64` are 2^8, 2^16, 2^32, 2^64 |
| Metadata.PodTag | src/vm/metadata.rs:6-13 | Pod discriminants are 0..5 |
| Metadata.ModeTag | src/vm/metadata.rs:18-21 | addressing-mode discriminants are 0..1 |
| Metadata.Width | src/vm/metadata.rs:6-13 | every Pod is 1, 2, 4 or 8 bytes wide |
| Metadata.New | src/vm/metadata.rs:30-35 | the packed byte decodes back to the same Pod and to the given mode (Immediate when none is given); the low four bits are zero, and bit 4 is zero when no mode is given |
| Metadata.PodOf | src/vm/metadata.rs:38-40 | the Pod's discriminant is the byte's top three bits |
| Metadata.AddressingModeOf | src/vm/metadata.rs:43-47 | the mode's discriminant is bit 4 of the byte, whatever the other bits |
| Instruction.ToByte | src/vm/instruction.rs:13-30 | every opcode's discriminant is below 10 |
| Instruction.FromByte | src/vm/instruction.rs:13-30 | a byte below 10 is the discriminant of the opcode it names |
| Instruction.FromToByte | src/vm/instruction.rs:13-30 | byte to opcode inverts opcode to byte |
| Memory.Zeros | src/vm/stack.rs:14-16 | a new stack has `size` bytes, all zero |
| Memory.Read | src/vm/stack.rs:19-26 | an unaligned read of `width` bytes at any offset within the stack yields a value that fits the width |
| Memory.Write | src/vm/stack.rs:29-36 | an unaligned write changes only bytes `offset..offset+width`, and reading there gives the value written |
| Memory.ReadOverWrite | src/vm/stack.rs:19-36 | a write does not disturb a read of a disjoint region |
| Memory.WriteRead | src/vm/stack.rs:19-36 | writing back what was read leaves the stack unchanged |
| Memory.WriteWrite | src/vm/stack.rs:29-36 | the second of two writes to the same region wins |
| Memory.ReadZeros | src/vm/stack.rs:14-26 | any read from a fresh stack is zero |
| Memory.FlatSeesOverlap | src/vm/stack.rs:19-36 | on the byte-addressed stack a `u32` store of 0xFF00 at 0 is seen by a `u8` load at 1, which gives 0xFF |
| Memory.StridedRead | src/vm/stack.rs:11-26 | `read_at` over the declared array of 16-byte elements loads from byte `16·offset`, and the value fits the width |
| Memory.StridedWrite | src/vm/stack.rs:11-36 | `write_at` over the declared array changes only bytes `16·offset` onwards, and reading back gives the value |
| Memory.StridedIsolated | src/vm/stack.rs:11-36 | over the declared array, accesses of at most 16 bytes at different offsets never share a byte |
| Memory.StridedMissesOverlap | src/vm/stack.rs:11-36 | over the declared array the same `u32` store at 0 and `u8` load at 1 gives 0, not 0xFF |
| Memory.Stack.constructor | src/vm/stack.rs:14-16 | `Stack::new` allocates a fresh zero-filled array |
| Memory.Stack.ReadAt | src/vm/stack.rs:19-26 | `read_at` on the array yields a value that fits the width |
| Memory.Stack.WriteAt | src/vm/stack.rs:29-36 | `write_at` updates the array in place to `Memory.Write` of its old contents |
| Semantics.Size | src/vm.rs:100-202 | an instruction consumes 6 to 14 program bytes: opcode, metadata and a 4-byte address, plus an operand for move, arithmetic and compare (exactly 6 for print); a jump is exactly opcode and 8-byte target, 9 bytes |
| Semantics.Encode | benches/bench.rs:16-36 | an instruction occupies exactly `Size` bytes: opcode, metadata, address, then immediate or source address; or opcode and 8-byte target |
| Semantics.Fetched | src/vm.rs:35-47 | `fetch::<T>` reads a value that fits `size_of::<T>()` bytes |
| Semantics.DecodeAt | src/vm.rs:117-203 | a successful decode yields a well-formed instruction and the counter just past it, which lies within the program |
| Semantics.DecodeOperands | src/vm.rs:100-202 | the decoded instruction carries the opcode that was fetched, and its size accounts for the counter advance |
| Semantics.DecodeTarget | src/vm.rs:182-193 | a jump's target is fetched from the next 8 bytes and the opcode is kept |
| Semantics.DecodeSource | src/vm.rs:100-115 | the operand shape follows the metadata's addressing mode, and Pod and destination are kept |
| Semantics.WrappingAdd | src/vm.rs:223-226 | the sum modulo 2^(8·width): unchanged when it fits, minus the modulus otherwise |
| Semantics.WrappingSub | src/vm.rs:240-243 | the difference modulo 2^(8·width): unchanged when non-negative, plus the modulus otherwise |
| Semantics.WrappingMul | src/vm.rs:256-259 | the product modulo 2^(8·width): the remainder left when the product is divided by the modulus, which is the product itself when it fits |
| Semantics.TruncatingDiv | src/vm.rs:272-275 | unsigned division: the quotient `q` satisfies `q·b <= a < q·b + b` |
| Semantics.Cmp | src/vm.rs:288-291 | integer `partial_cmp` is total: Less exactly when `a < b`, Equal exactly when `a == b`, Greater exactly when `b < a` |
| Semantics.Arithmetic | src/vm.rs:130-169 | every arithmetic opcode yields a value that fits the Pod |
| Semantics.Init | src/vm.rs:25-31 | counter 0, no comparison, a zeroed stack of the given size, nothing printed |
| Semantics.OperandValue | src/vm.rs:100-115 | an immediate is used as is; an absolute source is read from the stack; this fails exactly when the source region leaves the stack |
| Semantics.ExecImm | src/vm.rs:213-291 | a `*_imm` helper applied to an operand value never changes the stack size (its effects are stated by `Properties.MoveStores`, `ArithmeticUpdatesDst` and `CompareSetsRegister`) |
| Semantics.Exec | src/vm.rs:119-202 | executing an instruction never changes the stack size |
| Semantics.Step | src/vm.rs:50-204 | one `execute` never changes the stack size |
| Semantics.Run | src/vm.rs:206-210 | a halted run has its counter at or past the end of the program; a run that faulted or ran out of fuel stopped inside it |
| Properties.FetchedEncoded | src/vm.rs:35-47 | fetching the bytes an encoded value was written as yields the value |
| Properties.DecodeEncode | src/vm.rs:117-203 | decoding an encoded instruction, wherever it sits in a program, gives the instruction and the offset just past it |
| Properties.DecodeEncodeOperate | src/vm.rs:100-169 | the operand decoder inverts the encoder for move, arithmetic and compare |
| Properties.DecodeEncodeSource | src/vm.rs:100-115 | the operand-shape decoder inverts the encoder in both addressing modes |
| Properties.DecodeEncodePrint | src/vm.rs:195-202 | the print decoder inverts the encoder |
| Properties.DecodeEncodeJump | src/vm.rs:182-193 | the jump decoders invert the encoder |
| Properties.DecodedOperate | src/vm.rs:100-115 | a decoded operand instruction has its Pod and addressing mode from the metadata byte and its destination from the next 4 bytes |
| Properties.DecodedImmediate | src/vm.rs:107-109 | in immediate mode the operand is the next Pod-width bytes |
| Properties.DecodedAbsolute | src/vm.rs:110-112 | in absolute mode the operand is a 4-byte source address |
| Properties.DecodedJump | src/vm.rs:182-193 | a jump's target is the next 8 bytes, and the decode consumes exactly them |
| Properties.DecodedPrint | src/vm.rs:195-202 | print takes its Pod from the metadata byte and its address from the next 4 bytes |
| Properties.StepDecodes | src/vm.rs:117-119 | a step that succeeds read an opcode byte below 10, decoded the operands of that opcode, and executed them |
| Properties.TruncatedFaults | src/vm.rs:35-47 | an instruction cut short at the end of the program faults with `UnexpectedEndOfProgram` |
| Properties.TruncatedOperands | src/vm.rs:100-115 | an operand instruction cut short after its opcode faults with `UnexpectedEndOfProgram` |
| Properties.MoveStores | src/vm.rs:213-220 | `move` succeeds exactly when the operand is readable and the destination fits; it then writes the operand at `dst` and changes nothing else |
| Properties.ArithmeticUpdatesDst | src/vm.rs:223-285 | arithmetic succeeds exactly when both regions fit and no division by zero occurs; it then replaces `dst` by `dst op operand` and changes nothing else |
| Properties.DivideByZeroFaults | src/vm.rs:272-275 | dividing by an immediate zero faults with `DivisionByZero` |
| Properties.CompareSetsRegister | src/vm.rs:288-297 | `cmp` succeeds exactly when both regions fit; it then sets only the comparison register, to the order of `dst` against the operand |
| Properties.CompareThenJumpIfLessThan | src/vm.rs:288-316 | after a `cmp`, `jl` jumps exactly when `dst` was below the operand |
| Properties.CompareThenJumpIfEqual | src/vm.rs:288-309 | after a `cmp`, `je` jumps exactly when `dst` equalled the operand |
| Properties.JumpsOnlyMoveCounter | src/vm.rs:300-316 | jumps never fault; they change only the counter, to the target when taken and past the jump otherwise |
| Properties.PrintEmits | src/vm.rs:319-322 | print succeeds exactly when the region fits, and then only appends the value read to the output |
| Properties.StepConsumesInstruction | src/vm.rs:117-203 | a step moves the counter to the target of a taken jump, and otherwise, including a conditional jump not taken, just past the decoded instruction |
| Properties.RunUnfold | src/vm.rs:206-210 | inside the program, a run is one step followed by the rest of the run, or a fault |
| Properties.RunLive | src/vm.rs:206-210 | a run that does not fault and has fuel takes its first step successfully |
| Properties.RunStopped | src/vm.rs:206-210 | with the counter at or past the end, or no fuel left, a run stops where it is; it halts exactly in the first case |
| Properties.ExtendsBack | src/vm.rs:206-210 | one successful step preserves fuel monotonicity |
| Properties.ExtendsStopped | src/vm.rs:206-210 | a run that stops, faults or halts keeps its outcome under more fuel |
| Properties.RunMonotone | src/vm.rs:206-210 | a run that halts with some fuel halts in the same state with any larger fuel |
| Machine.VM.constructor | src/vm.rs:25-31 | `VM::new` starts in the state `Semantics.Init` over the given program |
| Machine.VM.Fetch | src/vm.rs:35-47 | `fetch` returns the little-endian value of the next `n` program bytes and advances the counter by `n` |
| Machine.VM.MoveImm | src/vm.rs:213-215 | writes the immediate at `dst` |
| Machine.VM.Move | src/vm.rs:218-220 | copies the Pod at `src` to `dst` |
| Machine.VM.AddImm | src/vm.rs:223-226 | `dst` becomes the wrapping sum of `dst` and the immediate |
| Machine.VM.Add | src/vm.rs:229-237 | `dst` becomes the wrapping sum of `dst` and `src` |
| Machine.VM.SubImm | src/vm.rs:240-243 | `dst` becomes the wrapping difference of `dst` and the immediate |
| Machine.VM.Sub | src/vm.rs:246-253 | `dst` becomes the wrapping difference of `dst` and `src` |
| Machine.VM.MulImm | src/vm.rs:256-259 | `dst` becomes the wrapping product of `dst` and the immediate |
| Machine.VM.Mul | src/vm.rs:262-269 | `dst` becomes the wrapping product of `dst` and `src` |
| Machine.VM.DivImm | src/vm.rs:272-275 | `dst` becomes the truncating quotient of `dst` by a non-zero immediate |
| Machine.VM.Div | src/vm.rs:278-285 | `dst` becomes the truncating quotient of `dst` by a non-zero `src` |
| Machine.VM.CmpImm | src/vm.rs:288-291 | the comparison register holds the order of `dst` against the immediate |
| Machine.VM.Cmp | src/vm.rs:294-297 | the comparison register holds the order of `dst` against `src` |
| Machine.VM.Jump | src/vm.rs:300-302 | the counter becomes the target |
| Machine.VM.JumpIfEqual | src/vm.rs:305-309 | the counter becomes the target exactly when the last comparison was Equal |
| Machine.VM.JumpIfLessThan | src/vm.rs:312-316 | the counter becomes the target exactly when the last comparison was Less |
| Machine.VM.Print | src/vm.rs:319-322 | appends the Pod read at the address to the output |
| Machine.VM.ExecuteImmediate | src/vm.rs:119-181 | dispatching an opcode to its `*_imm` helper gives the reference's effect |
| Machine.VM.ExecuteAbsolute | src/vm.rs:119-181 | dispatching an opcode to its two-address helper gives the reference's effect |
| Machine.VM.HandleInstruction | src/vm.rs:100-115 | fetching metadata and operands and dispatching on mode and Pod performs the decoded instruction |
| Machine.VM.HandleImmediate | src/vm.rs:107-109 | fetching a Pod-width immediate and dispatching gives the reference's effect |
| Machine.VM.HandleAbsolute | src/vm.rs:110-112 | fetching a source address and dispatching gives the reference's effect |
| Machine.VM.ExecuteJump | src/vm.rs:182-193 | fetching an 8-byte target and the conditional jump give the reference's effect |
| Machine.VM.ExecutePrint | src/vm.rs:195-202 | fetching Pod and address and printing give the reference's effect |
| Machine.VM.Execute | src/vm.rs:50-204 | one `execute` moves the machine to exactly `Semantics.Step` of its old state |
| Machine.VM.Interpret | src/vm.rs:206-210 | the loop leaves the machine in the state `Semantics.Run` reaches; it reports halted exactly when the counter has left the program |
| Fibonacci.Assemble | benches/bench.rs:16-24 | `byte_vec!`: the instructions' encodings end to end, a program whose length is the sum of their sizes |
| Fibonacci.DecodeAssembled | benches/bench.rs:16-36 | every instruction of an assembled program decodes at its own offset |
| Fibonacci.FibCode | benches/bench.rs:27-36 | the benchmark's eight instructions are well formed |
| Fibonacci.FibLoaded | benches/bench.rs:27-36 | the 79-byte benchmark program decodes to its eight instructions at offsets 0, 10, 20, 30, 40, 50, 60, 70 |
| Fibonacci.Prologue | benches/bench.rs:28-29 | the first two instructions leave `x = 0`, `y = 1` at the loop head (offset 20) |
| Fibonacci.AddStep | benches/bench.rs:31 | `z += y` without wrap-around |
| Fibonacci.MoveStep | benches/bench.rs:30-33 | an absolute `move` copies one cell into another and leaves the third |
| Fibonacci.CompareStep | benches/bench.rs:34 | `cmp x, floor` sets only the comparison register |
| Fibonacci.JumpStep | benches/bench.rs:35 | `jl 20` returns to the loop head after Less and leaves the program otherwise |
| Fibonacci.Iteration | benches/bench.rs:30-35 | one pass of the loop turns `(x, y)` into `(y, x + y)` and returns to the head exactly when the new `x` is below the floor |
| Fibonacci.FibFrom | benches/bench.rs:39-54 | the native loop's result is at least the current `y` and at least the floor |
| Fibonacci.LoopHalts | benches/bench.rs:30-35 | from the loop head with `x <= y <= 2·floor + 1`, the bytecode loop halts with `x` equal to the native loop's result |
| Fibonacci.FibonacciAgrees | benches/bench.rs:27-54 | for every floor below 2^30, zero included, and enough fuel, the bytecode program halts with the native `fibonacci(floor)` in its first cell |
| Fibonacci.FibValue | benches/bench.rs:64 | `fibonacci(255)` is 377, after 14 passes |
| Fibonacci.NativeFibonacci | benches/bench.rs:39-54 | the native do-while loop computes `FibFrom(0, 1, floor)` |
| Fibonacci.Bench | benches/bench.rs:56-62 | `VM::<12>::new` on the benchmark program followed by `interpret` halts with 377 in the first cell |

## Left out

- Float Pods: `f32`/`f64` values are moved, printed and fetched as raw bytes. Arithmetic and comparison on them yield the `UnmodelledFloat` fault, because IEEE 754 arithmetic and `partial_cmp` on floats are not modelled.
- Machine.VM.Print: what `println!("{:?}")` writes is recorded in a ghost `output` sequence of (Pod, value) pairs. Debug formatting and standard output are not modelled.
- Machine.VM.Interpret: takes a fuel bound, because a loop without a termination measure cannot be written. The reference `Semantics.Run` carries the same bound. `Properties.RunMonotone` shows that more fuel never changes a halted outcome.
- Undefined behaviour and panics are replaced by fault results. This covers out-of-bounds `fetch`, `read_at` and `write_at` (debug-assert panics in debug builds, unchecked pointer access in release), transmutes of out-of-range opcode or Pod bytes, and integer division by zero (a panic in every build). The imperative methods instead require that the reference does not fault, which is the `unsafe` contract.
- Integer overflow is modelled as wrap-around, as in a release build. The debug-build overflow panic is not modelled.
- The stack is byte-addressed: `offset` counts bytes, as the bounds checks of src/vm/stack.rs:20-24 and 30-34 do. The declared element type `Aligned<A16, u8>` (src/vm/stack.rs:11) makes each element 16 bytes, so in the code `as_ptr().add(offset)` moves 16·offset bytes. Two behaviours of that layout are not in the VM model. Typed accesses at different offsets never overlap in the code: after a `u32` store of 0xFF00 at 0, a `u8` load at 1 gives 0 there and 0xFF here. And a load wider than one byte from a fresh stack reads padding bytes that `Stack::new` never initialises, so `Memory.ReadZeros` holds only for the byte-addressed stack. `Memory.StridedRead`/`StridedWrite` model the declared layout on its own (see Findings).
- Raw pointer casts are not modelled. The stack is a plain byte array with unaligned little-endian access, and the model assumes a little-endian host.
- `Stack::default` (src/vm/stack.rs:39-43) only calls `new`; the `Memory.Stack` constructor stands for both.
- `Metadata`'s `Debug` implementation is not modelled: it is formatting only.
- Bits 3-0 of a metadata byte are ignored by the decoder, as in the code. They are not rejected.
- A jump to a target at or past the end of the program halts the machine, because the interpreter loop tests `counter < len`.
- The `Opcode` enum in src/vm/instruction.rs has no `JumpIfEqual`, but src/vm.rs dispatches on it. The model adds `JumpIfEqual` after `Jump`, so `JumpIfLessThan` is 8 and `Print` is 9.
- `vm.rs` names the addressing modes `Opkind::{Immediate, Memory}` and metadata.rs names them `AddressingMode::{Immediate, Absolute}`. The model uses the latter.
- Fibonacci.FibonacciAgrees and Fibonacci.NativeFibonacci: floors are limited to below 2^30. Below that bound the `u32` cells of the native loop and of the bytecode never wrap, and the proofs do not cover wrapped values.
- src/vm/pod.rs and src/vm/stack/pod.rs (the `Pod` marker trait), src/lib.rs, src/bin.rs and examples/fibonacci.rs are not part of this model. They hold a marker trait, module wiring and a demonstration program. The benchmark harness of benches/bench.rs (criterion setup, `black_box`) is likewise not modelled.
- Bytes are an integer newtype `0 <= b < 256`, not a bit-vector type. The shifts and masks of src/vm/metadata.rs are written as the equal division and remainder.

## Findings

| source | as written | input that shows it | evidently intended | confidence | as-written member | corrected member |
|---|---|---|---|---|---|---|
| src/vm/stack.rs:11, 25, 35 | the stack is `[Aligned<A16, u8>; STACK_SIZE]`, so each element is 16 bytes and `add(offset)` moves 16·offset bytes; typed values at nearby offsets never overlap, and wide loads read uninitialised padding | `write_at::<u32>(0, 0xFF00)` then `read_at::<u8>(1)` gives 0 | a byte-addressed stack of STACK_SIZE bytes aligned as a whole, as the bounds checks at lines 20-24 and 30-34 (`offset + size_of::<T>() <= STACK_SIZE`) and the doc comment at lines 6-9 describe; the same load gives 0xFF | high; not executed | Memory.StridedMissesOverlap | Memory.FlatSeesOverlap |
