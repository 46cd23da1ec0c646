/**
 * Reference semantics of the interpreter: how one instruction is laid out in
 * the program stream (DecodeAt, with its inverse Encode), what it does to the
 * machine state (Exec), one fetch-decode-execute step (Step) and the run loop
 * (Run). Where the source has undefined behaviour or a panic (a debug
 * assertion, an unchecked transmute, a division by zero) the step yields a
 * Fault instead.
 */
module Semantics {
  import opened Bytes
  import opened Wrappers
  import LittleEndian
  import Metadata
  import Instruction
  import Memory

  /** `AddressType = u32`: stack addresses take 4 bytes in the stream. */
  const ADDRESS_WIDTH: nat := 4
  /** Jump targets are `usize`: 8 bytes on a 64-bit host. */
  const TARGET_WIDTH: nat := 8

  type Address = a: nat | a < 0x1_0000_0000
  type Target = t: nat | t < 0x1_0000_0000_0000_0000

  datatype Ordering = Less | Equal | Greater

  /** What `print` emits: a value of the given Pod, as its bit pattern. */
  datatype Printed = Printed(pod: Metadata.Pod, bits: nat)

  /**
   * The VM's fields: the program counter, the stack contents and the
   * comparison register; `output` is the sequence of printed values.
   */
  datatype State = State(counter: nat, mem: seq<byte>, comparison: Option<Ordering>, output: seq<Printed>)

  /** Where the source panics (debug build) or has undefined behaviour. */
  datatype Fault =
    | UnexpectedEndOfProgram  // `fetch` past the end of the program
    | InvalidOpcode           // opcode byte that is no discriminant
    | InvalidMetadata         // Pod tag 6 or 7
    | MemoryFault             // `read_at`/`write_at` past STACK_SIZE
    | DivisionByZero          // integer `/` by zero
    | UnmodelledFloat         // F32/F64 arithmetic or comparison, outside this model

  type OperandOpcode = op: Instruction.Opcode | Instruction.TakesOperands(op) witness Instruction.Move

  /** The second operand: an immediate value, or the stack address holding it. */
  datatype Source = Imm(value: nat) | Abs(src: Address)

  /** One decoded instruction. */
  datatype Instr =
    | Operate(opcode: OperandOpcode, pod: Metadata.Pod, dst: Address, source: Source)
    | Jump(target: Target)
    | JumpIfEqual(target: Target)
    | JumpIfLessThan(target: Target)
    | Print(pod: Metadata.Pod, addr: Address)

  /** An immediate fits the width its Pod selects. */
  predicate WellFormed(i: Instr) {
    i.Operate? && i.source.Imm? ==> i.source.value < LittleEndian.Pow256(Metadata.Width(i.pod))
  }

  /**
   * The number of program bytes an instruction occupies: the opcode, then
   * metadata and an address (and an operand), or an 8-byte jump target.
   */
  function Size(i: Instr): (n: nat)
    ensures 1 + 1 + ADDRESS_WIDTH <= n <= 1 + 1 + ADDRESS_WIDTH + 8
    ensures i.Operate? ==> n > 1 + 1 + ADDRESS_WIDTH
    ensures i.Print? ==> n == 1 + 1 + ADDRESS_WIDTH
    ensures i.Jump? || i.JumpIfEqual? || i.JumpIfLessThan? ==> n == 1 + TARGET_WIDTH
  {
    match i
    case Operate(_, pod, _, Imm(_)) => 1 + 1 + ADDRESS_WIDTH + Metadata.Width(pod)
    case Operate(_, _, _, Abs(_)) => 1 + 1 + ADDRESS_WIDTH + ADDRESS_WIDTH
    case Print(_, _) => 1 + 1 + ADDRESS_WIDTH
    case _ => 1 + TARGET_WIDTH
  }

  /** The addressing mode an operand shape is written with. */
  function ModeOf(source: Source): Metadata.AddressingMode {
    match source
    case Imm(_) => Metadata.Immediate
    case Abs(_) => Metadata.Absolute
  }

  /** The opcode an instruction is written with. */
  function OpcodeOf(i: Instr): Instruction.Opcode {
    match i
    case Operate(op, _, _, _) => op
    case Jump(_) => Instruction.Jump
    case JumpIfEqual(_) => Instruction.JumpIfEqual
    case JumpIfLessThan(_) => Instruction.JumpIfLessThan
    case Print(_, _) => Instruction.Print
  }

  /** The bytes of an instruction, as the example programs lay them out. */
  function Encode(i: Instr): (bs: seq<byte>)
    requires WellFormed(i)
    ensures |bs| == Size(i)
  {
    LittleEndian.Pow256Widths();
    var code := [Instruction.ToByte(OpcodeOf(i))];
    match i
    case Operate(_, pod, dst, source) =>
      var metadata := [Metadata.New(pod, Some(ModeOf(source)))];
      var operand := match source
        case Imm(v) => LittleEndian.Encode(v, Metadata.Width(pod))
        case Abs(src) => LittleEndian.Encode(src, ADDRESS_WIDTH);
      code + metadata + LittleEndian.Encode(dst, ADDRESS_WIDTH) + operand
    case Print(pod, addr) =>
      code + [Metadata.New(pod, None)] + LittleEndian.Encode(addr, ADDRESS_WIDTH)
    case _ => code + LittleEndian.Encode(i.target, TARGET_WIDTH)
  }

  /**
   * `fetch::<T>` at `at`: the little-endian value of the next `n` bytes. It reads
   * the program as `Memory.Read` reads the stack, the same unaligned load.
   */
  function Fetched(program: seq<byte>, at: nat, n: nat): (v: nat)
    requires at + n <= |program|
    ensures v < LittleEndian.Pow256(n)
  {
    LittleEndian.Decode(program[at..at + n])
  }

  /**
   * Decodes the instruction whose opcode byte is at `at`: the instruction and
   * the offset just past it, or the fault the source would hit first.
   */
  function DecodeAt(program: seq<byte>, at: nat): (r: Result<(Instr, nat), Fault>)
    ensures r.Ok? ==> WellFormed(r.value.0)
    ensures r.Ok? ==> r.value.1 == at + Size(r.value.0) <= |program|
  {
    if |program| < at + 1 then Err(UnexpectedEndOfProgram)
    else
      LittleEndian.Pow256Widths();
      var code := Fetched(program, at, 1) as byte;
      if !Instruction.IsOpcode(code) then Err(InvalidOpcode)
      else DecodeOperands(program, Instruction.FromByte(code), at + 1)
  }

  /** Decodes what follows the opcode byte; `at` is just past the opcode. */
  function DecodeOperands(program: seq<byte>, opcode: Instruction.Opcode, at: nat): (r: Result<(Instr, nat), Fault>)
    ensures r.Ok? ==> WellFormed(r.value.0) && OpcodeOf(r.value.0) == opcode
    ensures r.Ok? ==> r.value.1 + 1 == at + Size(r.value.0) && r.value.1 <= |program|
  {
    if opcode.Jump? || opcode.JumpIfEqual? || opcode.JumpIfLessThan? then DecodeTarget(program, opcode, at)
    else if |program| < at + 1 then Err(UnexpectedEndOfProgram)
    else
      LittleEndian.Pow256Widths();
      var metadata := Fetched(program, at, 1) as byte;
      if !Metadata.HasPod(metadata) then Err(InvalidMetadata)
      else if |program| < at + 1 + ADDRESS_WIDTH then Err(UnexpectedEndOfProgram)
      else
        var pod := Metadata.PodOf(metadata);
        var dst := Fetched(program, at + 1, ADDRESS_WIDTH);
        if opcode.Print? then Ok((Print(pod, dst), at + 1 + ADDRESS_WIDTH))
        else DecodeSource(program, opcode, pod, Metadata.AddressingModeOf(metadata), dst, at + 1 + ADDRESS_WIDTH)
  }

  /** The `usize` target of a jump. */
  function DecodeTarget(program: seq<byte>, opcode: Instruction.Opcode, at: nat): (r: Result<(Instr, nat), Fault>)
    requires opcode.Jump? || opcode.JumpIfEqual? || opcode.JumpIfLessThan?
    ensures r.Ok? ==> WellFormed(r.value.0) && OpcodeOf(r.value.0) == opcode
    ensures r.Ok? ==> r.value.1 + 1 == at + Size(r.value.0) && r.value.1 <= |program|
  {
    if |program| < at + TARGET_WIDTH then Err(UnexpectedEndOfProgram)
    else
      LittleEndian.Pow256Widths();
      var target := Fetched(program, at, TARGET_WIDTH);
      var next := at + TARGET_WIDTH;
      if opcode.Jump? then Ok((Jump(target), next))
      else if opcode.JumpIfEqual? then Ok((JumpIfEqual(target), next))
      else Ok((JumpIfLessThan(target), next))
  }

  /** The second operand, in the shape the addressing mode selects; `at` is just past `dst`. */
  function DecodeSource(program: seq<byte>, opcode: OperandOpcode, pod: Metadata.Pod, mode: Metadata.AddressingMode,
                        dst: Address, at: nat): (r: Result<(Instr, nat), Fault>)
    ensures r.Ok? ==> WellFormed(r.value.0) && r.value.0.Operate?
    ensures r.Ok? ==> r.value.0.opcode == opcode && r.value.0.pod == pod && r.value.0.dst == dst
    ensures r.Ok? ==> ModeOf(r.value.0.source) == mode
    ensures r.Ok? ==> r.value.1 + 2 + ADDRESS_WIDTH == at + Size(r.value.0) && r.value.1 <= |program|
  {
    match mode
    case Immediate =>
      var width := Metadata.Width(pod);
      if |program| < at + width then Err(UnexpectedEndOfProgram)
      else Ok((Operate(opcode, pod, dst, Imm(Fetched(program, at, width))), at + width))
    case Absolute =>
      if |program| < at + ADDRESS_WIDTH then Err(UnexpectedEndOfProgram)
      else
        LittleEndian.Pow256Widths();
        Ok((Operate(opcode, pod, dst, Abs(Fetched(program, at, ADDRESS_WIDTH))), at + ADDRESS_WIDTH))
  }

  // ---------------------------------------------------------------------
  // Arithmetic of the unsigned Pods: Rust's `+ - *` wrap (release build)
  // and `/` truncates; `m` is 2^(8 * width).

  function WrappingAdd(a: nat, b: nat, m: nat): (r: nat)
    requires a < m && b < m
    ensures r < m
    ensures a + b < m ==> r == a + b
    ensures a + b >= m ==> r == a + b - m
  {
    ModRange(a + b, m, if a + b < m then 0 else 1);
    (a + b) % m
  }

  function WrappingSub(a: nat, b: nat, m: nat): (r: nat)
    requires a < m && b < m
    ensures r < m
    ensures b <= a ==> r == a - b
    ensures a < b ==> r == m + a - b
  {
    ModRange(a - b, m, if b <= a then 0 else -1);
    (a - b) % m
  }

  function WrappingMul(a: nat, b: nat, m: nat): (r: nat)
    requires a < m && b < m
    ensures r < m
    ensures a * b < m ==> r == a * b
    ensures a * b == (a * b / m) * m + r
  {
    assert a * b == (a * b / m) * m + (a * b) % m;
    if a * b < m then
      ModRange(a * b, m, 0);
      (a * b) % m
    else
      (a * b) % m
  }

  /** Euclidean remainder: a value in the q-th block of m values leaves x - q * m. */
  lemma ModRange(x: int, m: nat, q: int)
    requires q * m <= x < q * m + m
    ensures x % m == x - q * m
  {
    var d := q - x / m;
    assert x == (x / m) * m + x % m && 0 <= x % m < m;
    assert d * m == q * m - (x / m) * m;
    if d > 0 {
      MulAtLeast(m, d);
    } else if d < 0 {
      MulAtLeast(m, -d);
    }
  }

  function TruncatingDiv(a: nat, b: nat): (r: nat)
    requires b != 0
    ensures r <= a
    ensures r * b <= a < r * b + b
  {
    DivBound(a, b);
    a / b
  }

  lemma DivBound(a: nat, b: nat)
    requires b > 0
    ensures a / b <= a
    ensures (a / b) * b <= a < (a / b) * b + b
  {
    var q := a / b;
    assert a == q * b + a % b && 0 <= a % b < b;
    assert q * b >= q by {
      MulAtLeast(q, b);
    }
  }

  lemma {:induction false} MulAtLeast(q: nat, b: nat)
    requires b >= 1
    ensures q * b >= q
  {
    if b > 1 {
      MulAtLeast(q, b - 1);
      assert q * b == q * (b - 1) + q;
    }
  }

  /** Opcodes whose effect is `dst := dst op operand`. */
  predicate IsArithmetic(op: Instruction.Opcode) {
    op.Add? || op.Subtract? || op.Multiply? || op.Divide?
  }

  /** `dst op operand` on `m`-bounded unsigned values. */
  function Arithmetic(op: Instruction.Opcode, a: nat, b: nat, m: nat): (r: nat)
    requires IsArithmetic(op) && a < m && b < m
    requires op.Divide? ==> b != 0
    ensures r < m
  {
    match op
    case Add => WrappingAdd(a, b, m)
    case Subtract => WrappingSub(a, b, m)
    case Multiply => WrappingMul(a, b, m)
    case Divide => TruncatingDiv(a, b)
  }

  /** `partial_cmp` on integers: always ordered. */
  function Cmp(a: nat, b: nat): (r: Ordering)
    ensures r == Less <==> a < b
    ensures r == Equal <==> a == b
    ensures r == Greater <==> b < a
  {
    if a < b then Less else if a == b then Equal else Greater
  }

  // ---------------------------------------------------------------------
  // Execution

  /** The initial state of `VM::new`: counter 0, a zeroed stack, no comparison. */
  function Init(stackSize: nat): (s: State)
    ensures s.counter == 0 && s.comparison == None && s.output == []
    ensures |s.mem| == stackSize && forall i :: 0 <= i < stackSize ==> s.mem[i] == 0
  {
    State(0, Memory.Zeros(stackSize), None, [])
  }

  /** The operand value: the immediate itself, or the stack value at the source address. */
  function OperandValue(mem: seq<byte>, pod: Metadata.Pod, source: Source): (r: Result<nat, Fault>)
    requires source.Imm? ==> source.value < LittleEndian.Pow256(Metadata.Width(pod))
    ensures r.Ok? ==> r.value < LittleEndian.Pow256(Metadata.Width(pod))
    ensures r.Err? <==> source.Abs? && |mem| < source.src + Metadata.Width(pod)
  {
    match source
    case Imm(v) => Ok(v)
    case Abs(src) =>
      if |mem| < src + Metadata.Width(pod) then Err(MemoryFault)
      else Ok(Memory.Read(mem, src, Metadata.Width(pod)))
  }

  /**
   * The immediate form `op dst, v` (`move_imm`, `add_imm`, ..., `cmp_imm`);
   * the memory form reads `v` from the source address first and then does this.
   */
  function ExecImm(op: OperandOpcode, pod: Metadata.Pod, dst: Address, v: nat, s: State): (r: Result<State, Fault>)
    requires v < LittleEndian.Pow256(Metadata.Width(pod))
    ensures r.Ok? ==> |r.value.mem| == |s.mem|
  {
    var width := Metadata.Width(pod);
    var m := LittleEndian.Pow256(width);
    if |s.mem| < dst + width then Err(MemoryFault)
    else if op == Instruction.Move then Ok(s.(mem := Memory.Write(s.mem, dst, width, v)))
    else if !Metadata.IsInteger(pod) then Err(UnmodelledFloat)
    else
      var current := Memory.Read(s.mem, dst, width);
      if op == Instruction.Compare then Ok(s.(comparison := Some(Cmp(current, v))))
      else if op == Instruction.Divide && v == 0 then Err(DivisionByZero)
      else Ok(s.(mem := Memory.Write(s.mem, dst, width, Arithmetic(op, current, v, m))))
  }

  /** The effect of a decoded instruction; `s.counter` is already past it. */
  function Exec(i: Instr, s: State): (r: Result<State, Fault>)
    requires WellFormed(i)
    ensures r.Ok? ==> |r.value.mem| == |s.mem|
  {
    match i
    case Operate(op, pod, dst, source) =>
      (match OperandValue(s.mem, pod, source)
       case Err(f) => Err(f)
       case Ok(v) => ExecImm(op, pod, dst, v, s))
    case Jump(target) => Ok(s.(counter := target))
    case JumpIfEqual(target) => Ok(if s.comparison == Some(Equal) then s.(counter := target) else s)
    case JumpIfLessThan(target) => Ok(if s.comparison == Some(Less) then s.(counter := target) else s)
    case Print(pod, addr) =>
      var width := Metadata.Width(pod);
      if |s.mem| < addr + width then Err(MemoryFault)
      else Ok(s.(output := s.output + [Printed(pod, Memory.Read(s.mem, addr, width))]))
  }

  /** `execute`: fetch and decode the instruction at the counter, then run it. */
  function Step(program: seq<byte>, s: State): (r: Result<State, Fault>)
    ensures r.Ok? ==> |r.value.mem| == |s.mem|
  {
    match DecodeAt(program, s.counter)
    case Err(f) => Err(f)
    case Ok((i, next)) => Exec(i, s.(counter := next))
  }

  /** The outcome of `interpret` after at most `fuel` steps. */
  datatype Outcome = Halted(state: State) | OutOfFuel(state: State) | Faulted(fault: Fault, state: State)

  /** `interpret`: step while the counter is inside the program, for at most `fuel` steps. */
  function Run(program: seq<byte>, s: State, fuel: nat): (r: Outcome)
    ensures r.Halted? ==> r.state.counter >= |program|
    ensures r.OutOfFuel? || r.Faulted? ==> r.state.counter < |program|
    ensures |r.state.mem| == |s.mem|
    decreases fuel
  {
    if s.counter >= |program| then Halted(s)
    else if fuel == 0 then OutOfFuel(s)
    else match Step(program, s)
      case Err(f) => Faulted(f, s)
      case Ok(s') => Run(program, s', fuel - 1)
  }
}
