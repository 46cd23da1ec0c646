/**
 * The benchmark program of `benches/bench.rs`: Fibonacci numbers below a
 * floor (255 in the benchmark), assembled with the instruction encoding and
 * run on a 12-byte stack holding `x` at offset 0, `y` at offset 4 and `z` at
 * offset 8. The VM halts with the same `x` as the benchmark's native
 * `fibonacci(floor)`; for 255 that is 377.
 */
module Fibonacci {
  import opened Bytes
  import opened Wrappers
  import LittleEndian
  import Instruction
  import Metadata
  import Memory
  import opened Semantics
  import Properties
  import Machine

  /** The encodings of `code` laid end to end, as the benchmark's `byte_vec!` does. */
  function Assemble(code: seq<Instr>): (bs: seq<byte>)
    requires forall j :: 0 <= j < |code| ==> WellFormed(code[j])
    ensures |bs| == SizeSum(code)
  {
    if code == [] then [] else Assemble(code[..|code| - 1]) + Encode(code[|code| - 1])
  }

  lemma {:induction false} AssemblePrefix(code: seq<Instr>, j: nat)
    requires forall j :: 0 <= j < |code| ==> WellFormed(code[j])
    requires j <= |code|
    ensures Assemble(code[..j]) <= Assemble(code)
    decreases |code| - j
  {
    if j < |code| {
      var init := code[..|code| - 1];
      assert init[..j] == code[..j];
      AssemblePrefix(init, j);
    } else {
      assert code[..j] == code;
    }
  }

  /** The total size of `code`, instruction by instruction. */
  function SizeSum(code: seq<Instr>): nat {
    if code == [] then 0 else SizeSum(code[..|code| - 1]) + Size(code[|code| - 1])
  }

  lemma PrefixSplit(a: seq<byte>, b: seq<byte>)
    requires a <= b
    ensures b == a + b[|a|..]
  {
  }

  /** An assembled program around its `j`-th instruction. */
  lemma AssembleSplit(code: seq<Instr>, j: nat) returns (suffix: seq<byte>)
    requires forall j :: 0 <= j < |code| ==> WellFormed(code[j])
    requires j < |code|
    ensures Assemble(code) == Assemble(code[..j]) + Encode(code[j]) + suffix
  {
    var init := code[..j + 1];
    var upto := Assemble(init);
    assert upto == Assemble(code[..j]) + Encode(code[j]) by {
      assert init[..|init| - 1] == code[..j] && init[|init| - 1] == code[j];
    }
    AssemblePrefix(code, j + 1);
    suffix := Assemble(code)[|upto|..];
    PrefixSplit(upto, Assemble(code));
  }

  /** Decoding an assembled program at the start of its `j`-th instruction gives that instruction back. */
  lemma DecodeAssembled(code: seq<Instr>, j: nat)
    requires forall j :: 0 <= j < |code| ==> WellFormed(code[j])
    requires j < |code|
    ensures DecodeAt(Assemble(code), SizeSum(code[..j])) == Ok((code[j], SizeSum(code[..j + 1])))
  {
    var prefix := Assemble(code[..j]);
    assert SizeSum(code[..j + 1]) == SizeSum(code[..j]) + Size(code[j]) by {
      assert code[..j + 1][..j] == code[..j];
    }
    var suffix := AssembleSplit(code, j);
    DecodeAround(Assemble(code), prefix, code[j], suffix, SizeSum(code[..j]), SizeSum(code[..j + 1]));
  }

  /** Decoding at the boundary after `prefix` finds the instruction encoded there. */
  lemma DecodeAround(bs: seq<byte>, prefix: seq<byte>, i: Instr, suffix: seq<byte>, at: nat, next: nat)
    requires WellFormed(i) && bs == prefix + Encode(i) + suffix
    requires at == |prefix| && next == at + Size(i)
    ensures DecodeAt(bs, at) == Ok((i, next))
  {
    Properties.DecodeEncode(i, prefix, suffix);
  }

  /** The floors the 32-bit cells can hold without `z = x + y` wrapping. */
  predicate ValidFloor(floor: nat) {
    floor < 0x4000_0000
  }

  /** The benchmark's eight instructions, looping while `x < floor`. */
  function FibCode(floor: nat): (code: seq<Instr>)
    requires ValidFloor(floor)
    ensures |code| == 8 && forall j :: 0 <= j < |code| ==> WellFormed(code[j])
  {
    LittleEndian.Pow256Widths();
    [
      Operate(Instruction.Move, Metadata.U32, 0, Imm(0)),         // x = 0
      Operate(Instruction.Move, Metadata.U32, 4, Imm(1)),         // y = 1
      Operate(Instruction.Move, Metadata.U32, 8, Abs(0)),         // z = x
      Operate(Instruction.Add, Metadata.U32, 8, Abs(4)),          // z += y
      Operate(Instruction.Move, Metadata.U32, 0, Abs(4)),         // x = y
      Operate(Instruction.Move, Metadata.U32, 4, Abs(8)),         // y = z
      Operate(Instruction.Compare, Metadata.U32, 0, Imm(floor)),  // compare x with the floor
      JumpIfLessThan(20)                                          // loop while x < floor
    ]
  }

  function FibProgram(floor: nat): seq<byte>
    requires ValidFloor(floor)
  {
    Assemble(FibCode(floor))
  }

  /** Byte offset of the `j`-th instruction: ten bytes each, the closing jump nine. */
  function Offset(j: nat): nat {
    if j < 8 then 10 * j else 79
  }

  lemma {:induction false} FibOffsets(floor: nat, j: nat)
    requires ValidFloor(floor) && j <= 8
    ensures SizeSum(FibCode(floor)[..j]) == Offset(j)
  {
    var code := FibCode(floor);
    if j > 0 {
      FibOffsets(floor, j - 1);
      assert code[..j][..j - 1] == code[..j - 1];
    } else {
      assert code[..0] == [];
    }
  }

  /** The `j`-th instruction of the benchmark decodes at its offset in `program`. */
  predicate LoadedAt(program: seq<byte>, floor: nat, j: nat)
    requires ValidFloor(floor) && j < 8
  {
    DecodeAt(program, Offset(j)) == Ok((FibCode(floor)[j], Offset(j + 1)))
  }

  /** A program that holds the benchmark's instructions at their offsets. */
  predicate Loaded(program: seq<byte>, floor: nat)
    requires ValidFloor(floor)
  {
    |program| == 79 && forall j :: 0 <= j < 8 ==> LoadedAt(program, floor, j)
  }

  /** The assembled benchmark decodes back to its instructions. */
  lemma FibLoaded(floor: nat)
    requires ValidFloor(floor)
    ensures Loaded(FibProgram(floor), floor)
  {
    var code := FibCode(floor);
    forall j | 0 <= j < 8
      ensures LoadedAt(FibProgram(floor), floor, j)
    {
      DecodeAssembled(code, j);
      FibOffsets(floor, j);
      FibOffsets(floor, j + 1);
    }
    FibOffsets(floor, 8);
    assert code[..8] == code;
  }

  /** One step of a loaded program at instruction `j`, to the state `t` that instruction produces. */
  lemma StepTo(program: seq<byte>, floor: nat, j: nat, s: State, t: State, fuel: nat, k: nat)
    requires ValidFloor(floor) && Loaded(program, floor)
    requires j < 8 && s.counter == Offset(j) && fuel == k + 1
    requires Exec(FibCode(floor)[j], s.(counter := Offset(j + 1))) == Ok(t)
    ensures Run(program, s, fuel) == Run(program, t, k)
  {
    assert LoadedAt(program, floor, j);
    Properties.RunUnfold(program, s, k);
  }

  /** The three 4-byte cells `x`, `y`, `z` of the benchmark's 12-byte stack. */
  predicate Cells(mem: seq<byte>, x: nat, y: nat, z: nat) {
    |mem| == 12 && Memory.Read(mem, 0, 4) == x && Memory.Read(mem, 4, 4) == y && Memory.Read(mem, 8, 4) == z
  }

  lemma StoreCell(mem: seq<byte>, x: nat, y: nat, z: nat, c: nat, v: nat)
    requires Cells(mem, x, y, z) && c < 3 && v < 0x1_0000_0000
    ensures LittleEndian.Pow256(4) == 0x1_0000_0000
    ensures Cells(Memory.Write(mem, 4 * c, 4, v), if c == 0 then v else x, if c == 1 then v else y, if c == 2 then v else z)
  {
    LittleEndian.Pow256Widths();
    if c != 0 { Memory.ReadOverWrite(mem, 4 * c, 4, v, 0, 4); }
    if c != 1 { Memory.ReadOverWrite(mem, 4 * c, 4, v, 4, 4); }
    if c != 2 { Memory.ReadOverWrite(mem, 4 * c, 4, v, 8, 4); }
  }

  /** The value of cell `c` among `x`, `y`, `z`. */
  function Cell(c: nat, x: nat, y: nat, z: nat): nat {
    if c == 0 then x else if c == 1 then y else z
  }

  /** A step of instruction `j` that stores `v` into cell `c`, seen through the three cells. */
  lemma StoreStep(program: seq<byte>, floor: nat, j: nat, s: State, x: nat, y: nat, z: nat, c: nat, v: nat, fuel: nat, k: nat)
    returns (t: State)
    requires ValidFloor(floor) && Loaded(program, floor)
    requires j < 8 && s.counter == Offset(j) && fuel == k + 1
    requires Cells(s.mem, x, y, z) && c < 3 && v < 0x1_0000_0000
    requires LittleEndian.Pow256(4) == 0x1_0000_0000
    requires Exec(FibCode(floor)[j], s.(counter := Offset(j + 1)))
             == Ok(s.(counter := Offset(j + 1), mem := Memory.Write(s.mem, 4 * c, 4, v)))
    ensures Run(program, s, fuel) == Run(program, t, k)
    ensures t.counter == Offset(j + 1) && t.comparison == s.comparison
    ensures Cells(t.mem, if c == 0 then v else x, if c == 1 then v else y, if c == 2 then v else z)
  {
    t := s.(counter := Offset(j + 1), mem := Memory.Write(s.mem, 4 * c, 4, v));
    StepTo(program, floor, j, s, t, fuel, k);
    StoreCell(s.mem, x, y, z, c, v);
  }

  /** `move` of an immediate into cell `c`. */
  lemma MoveImmStep(program: seq<byte>, floor: nat, j: nat, s: State, x: nat, y: nat, z: nat, c: nat, v: nat, fuel: nat, k: nat)
    returns (t: State)
    requires ValidFloor(floor) && Loaded(program, floor)
    requires j < 8 && s.counter == Offset(j) && fuel == k + 1
    requires Cells(s.mem, x, y, z)
    requires (j, c, v) == (0, 0, 0) || (j, c, v) == (1, 1, 1)
    ensures Run(program, s, fuel) == Run(program, t, k)
    ensures t.counter == Offset(j + 1) && t.comparison == s.comparison
    ensures Cells(t.mem, if c == 0 then v else x, if c == 1 then v else y, if c == 2 then v else z)
  {
    LittleEndian.Pow256Widths();
    assert FibCode(floor)[j] == Operate(Instruction.Move, Metadata.U32, 4 * c, Imm(v));
    t := StoreStep(program, floor, j, s, x, y, z, c, v, fuel, k);
  }

  /** `move` from cell `d` into cell `c`. */
  lemma MoveStep(program: seq<byte>, floor: nat, j: nat, s: State, x: nat, y: nat, z: nat, c: nat, d: nat, fuel: nat, k: nat)
    returns (t: State)
    requires ValidFloor(floor) && Loaded(program, floor)
    requires j < 8 && s.counter == Offset(j) && fuel == k + 1
    requires Cells(s.mem, x, y, z)
    requires (j, c, d) == (2, 2, 0) || (j, c, d) == (4, 0, 1) || (j, c, d) == (5, 1, 2)
    ensures Run(program, s, fuel) == Run(program, t, k)
    ensures t.counter == Offset(j + 1) && t.comparison == s.comparison
    ensures var v := Cell(d, x, y, z);
      Cells(t.mem, if c == 0 then v else x, if c == 1 then v else y, if c == 2 then v else z)
  {
    LittleEndian.Pow256Widths();
    assert FibCode(floor)[j] == Operate(Instruction.Move, Metadata.U32, 4 * c, Abs(4 * d));
    var v := Memory.Read(s.mem, 4 * d, 4);
    t := StoreStep(program, floor, j, s, x, y, z, c, v, fuel, k);
  }

  /** `add` of `y` to `z`, without wrapping. */
  lemma AddStep(program: seq<byte>, floor: nat, s: State, x: nat, y: nat, z: nat, fuel: nat, k: nat) returns (t: State)
    requires ValidFloor(floor) && Loaded(program, floor)
    requires s.counter == 30 && fuel == k + 1
    requires Cells(s.mem, x, y, z) && z + y < 0x1_0000_0000
    ensures Run(program, s, fuel) == Run(program, t, k)
    ensures t.counter == 40 && t.comparison == s.comparison && Cells(t.mem, x, y, z + y)
  {
    LittleEndian.Pow256Widths();
    assert FibCode(floor)[3] == Operate(Instruction.Add, Metadata.U32, 8, Abs(4));
    t := StoreStep(program, floor, 3, s, x, y, z, 2, z + y, fuel, k);
  }

  /** The first two instructions set `x = 0`, `y = 1`. */
  lemma Prologue(program: seq<byte>, floor: nat, fuel: nat, k: nat) returns (t: State)
    requires ValidFloor(floor) && Loaded(program, floor) && fuel == k + 2
    ensures Run(program, Init(12), fuel) == Run(program, t, k)
    ensures t.counter == 20 && Cells(t.mem, 0, 1, 0)
  {
    var s := Init(12);
    Memory.ReadZeros(12, 0, 4);
    Memory.ReadZeros(12, 4, 4);
    Memory.ReadZeros(12, 8, 4);
    var s1 := MoveImmStep(program, floor, 0, s, 0, 0, 0, 0, 0, fuel, k + 1);
    t := MoveImmStep(program, floor, 1, s1, 0, 0, 0, 1, 1, k + 1, k);
  }

  /** One pass of the loop body: `z = x + y; x = y; y = z`, then the jump back while `x < floor`. */
  lemma Iteration(program: seq<byte>, floor: nat, s: State, x: nat, y: nat, z: nat, fuel: nat, k: nat) returns (t: State)
    requires ValidFloor(floor) && Loaded(program, floor) && s.counter == 20 && Cells(s.mem, x, y, z) && x <= y < 0x8000_0000
    requires fuel == k + 6
    ensures Run(program, s, fuel) == Run(program, t, k)
    ensures t.counter == (if y < floor then 20 else 79) && Cells(t.mem, y, x + y, x + y)
  {
    var t1 := MoveStep(program, floor, 2, s, x, y, z, 2, 0, fuel, k + 5);
    var t2 := AddStep(program, floor, t1, x, y, x, k + 5, k + 4);
    var t3 := MoveStep(program, floor, 4, t2, x, y, x + y, 0, 1, k + 4, k + 3);
    var t4 := MoveStep(program, floor, 5, t3, y, y, x + y, 1, 2, k + 3, k + 2);
    t := LoopTail(program, floor, t4, y, x + y, k + 2, k);
  }

  /** `cmp x, floor`: only the comparison register changes. */
  lemma CompareStep(program: seq<byte>, floor: nat, s: State, x: nat, y: nat, fuel: nat, k: nat) returns (t: State)
    requires ValidFloor(floor) && Loaded(program, floor) && s.counter == 60 && Cells(s.mem, x, y, y)
    requires fuel == k + 1
    ensures Run(program, s, fuel) == Run(program, t, k)
    ensures t.counter == 70 && t.comparison == Some(Cmp(x, floor)) && Cells(t.mem, x, y, y)
  {
    LittleEndian.Pow256Widths();
    t := s.(counter := 70, comparison := Some(Cmp(x, floor)));
    StepTo(program, floor, 6, s, t, fuel, k);
  }

  /** `jl 20`: back to the loop after a `Less` comparison, past the end otherwise. */
  lemma JumpStep(program: seq<byte>, floor: nat, s: State, fuel: nat, k: nat) returns (t: State)
    requires ValidFloor(floor) && Loaded(program, floor) && s.counter == 70
    requires fuel == k + 1
    ensures Run(program, s, fuel) == Run(program, t, k)
    ensures t.counter == (if s.comparison == Some(Less) then 20 else 79) && t.mem == s.mem
  {
    t := if s.comparison == Some(Less) then s.(counter := 20) else s.(counter := 79);
    StepTo(program, floor, 7, s, t, fuel, k);
  }

  /** `cmp x, floor` and `jl 20`: back to the loop while `x < floor`, past the end otherwise. */
  lemma LoopTail(program: seq<byte>, floor: nat, s: State, x: nat, y: nat, fuel: nat, k: nat) returns (t: State)
    requires ValidFloor(floor) && Loaded(program, floor) && s.counter == 60 && Cells(s.mem, x, y, y)
    requires fuel == k + 2
    ensures Run(program, s, fuel) == Run(program, t, k)
    ensures t.counter == (if x < floor then 20 else 79) && Cells(t.mem, x, y, y)
  {
    var compared := CompareStep(program, floor, s, x, y, fuel, k + 1);
    t := JumpStep(program, floor, compared, k + 1, k);
  }

  /**
   * The benchmark's native `fibonacci(floor)` from the state `(x, y)` at the
   * top of its do-while loop: the `x` it returns.
   */
  function FibFrom(x: nat, y: nat, floor: nat): (r: nat)
    requires 0 < y && x <= y
    ensures y <= r && floor <= r
    decreases floor - x, floor - y
  {
    if y < floor then FibFrom(y, x + y, floor) else y
  }

  /** How many passes that loop makes. */
  function Passes(x: nat, y: nat, floor: nat): (n: nat)
    requires 0 < y && x <= y
    ensures n >= 1
    decreases floor - x, floor - y
  {
    if y < floor then 1 + Passes(y, x + y, floor) else 1
  }

  /** Past the last instruction the run has halted. */
  lemma LoopExit(program: seq<byte>, floor: nat, t: State, k: nat)
    requires ValidFloor(floor) && Loaded(program, floor) && t.counter == 79
    ensures Run(program, t, k) == Halted(t)
  {
  }

  /** From the top of the loop, the VM halts with `x` equal to the native loop's result. */
  lemma {:induction false} LoopHalts(program: seq<byte>, floor: nat, s: State, x: nat, y: nat, z: nat, fuel: nat)
    requires ValidFloor(floor) && Loaded(program, floor) && s.counter == 20 && Cells(s.mem, x, y, z)
    requires 0 < y && x <= y && y <= 2 * floor + 1
    requires fuel == 6 * Passes(x, y, floor)
    ensures Run(program, s, fuel).Halted?
    ensures Memory.Read(Run(program, s, fuel).state.mem, 0, 4) == FibFrom(x, y, floor)
    decreases floor - x, floor - y
  {
    if y < floor {
      var k := 6 * Passes(y, x + y, floor);
      assert fuel == k + 6 && FibFrom(x, y, floor) == FibFrom(y, x + y, floor);
      var t := Iteration(program, floor, s, x, y, z, fuel, k);
      LoopHalts(program, floor, t, y, x + y, x + y, k);
    } else {
      assert fuel == 6 && FibFrom(x, y, floor) == y;
      var t := Iteration(program, floor, s, x, y, z, fuel, 0);
      LoopExit(program, floor, t, 0);
    }
  }

  /** Any loaded program: from a fresh 12-byte stack the run ends with the native loop's `x`. */
  lemma LoadedAgrees(program: seq<byte>, floor: nat, fuel: nat)
    requires ValidFloor(floor) && Loaded(program, floor) && fuel == 2 + 6 * Passes(0, 1, floor)
    ensures Run(program, Init(12), fuel).Halted?
    ensures Memory.Read(Run(program, Init(12), fuel).state.mem, 0, 4) == FibFrom(0, 1, floor)
  {
    var k := 6 * Passes(0, 1, floor);
    var t := Prologue(program, floor, fuel, k);
    LoopHalts(program, floor, t, 0, 1, 0, k);
  }

  /**
   * The VM run of the benchmark program agrees with the native loop for every
   * floor, given at least the steps it needs (two, then six per pass).
   */
  lemma FibonacciAgrees(floor: nat, fuel: nat)
    requires ValidFloor(floor) && fuel >= 2 + 6 * Passes(0, 1, floor)
    ensures Run(FibProgram(floor), Init(12), fuel).Halted?
    ensures Memory.Read(Run(FibProgram(floor), Init(12), fuel).state.mem, 0, 4) == FibFrom(0, 1, floor)
  {
    var needed := 2 + 6 * Passes(0, 1, floor);
    FibLoaded(floor);
    LoadedAgrees(FibProgram(floor), floor, needed);
    Properties.RunMonotone(FibProgram(floor), Init(12), needed, fuel);
  }

  lemma FibValue()
    ensures FibFrom(0, 1, 255) == 377 && Passes(0, 1, 255) == 14
  {
  }

  /**
   * The benchmark's native `fibonacci(floor)`: a do-while loop over `u32`
   * cells. Floors below 2^30 keep `x + y` from wrapping.
   */
  method NativeFibonacci(floor: nat) returns (x: nat)
    requires ValidFloor(floor)
    ensures x == FibFrom(0, 1, floor)
  {
    x := 0;
    var y := 1;
    var z := 0;
    z := x + y;
    x := y;
    y := z;
    while x < floor
      invariant 0 < x <= y <= 2 * x
      invariant FibFrom(y - x, x, floor) == FibFrom(0, 1, floor)
      decreases floor - x, floor - y
    {
      z := x + y;
      x := y;
      y := z;
    }
  }

  /** `VM::<12>::new(&vec)` then `interpret()`, as the benchmark does with floor 255. */
  method Bench() returns (halted: bool, x: nat)
    ensures halted && x == 377
  {
    var vm := new Machine.VM(FibProgram(255), 12);
    FibValue();
    FibonacciAgrees(255, 86);
    halted := vm.Interpret(86);
    x := vm.stack.ReadAt(0, 4);
  }
}
