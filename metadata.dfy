/**
 * The metadata byte that follows the opcode of every operand-bearing
 * instruction: the Pod tag in bits 7-5, the addressing mode in bit 4,
 * bits 3-0 unused. On an unsigned byte, a shift right by k is a division
 * by 2^k and a mask of the low k bits is the remainder modulo 2^k, which is
 * how the bit fields are written here.
 */
module Metadata {
  import opened Bytes
  import opened Wrappers

  /** The primitive type an instruction's operands carry (`repr(u8)`, U8 = 0 .. F64 = 5). */
  datatype Pod = U8 | U16 | U32 | U64 | F32 | F64

  /** How the second operand's bytes are read: as the value, or as a stack address. */
  datatype AddressingMode = Immediate | Absolute

  /** The `repr(u8)` discriminant of a Pod. */
  function PodTag(pod: Pod): (t: byte)
    ensures t < 6
  {
    match pod
    case U8 => 0
    case U16 => 1
    case U32 => 2
    case U64 => 3
    case F32 => 4
    case F64 => 5
  }

  /** The `repr(u8)` discriminant of an addressing mode. */
  function ModeTag(mode: AddressingMode): (t: byte)
    ensures t < 2
  {
    match mode
    case Immediate => 0
    case Absolute => 1
  }

  /** `size_of` of the Rust type a Pod stands for. */
  function Width(pod: Pod): (w: nat)
    ensures w in {1, 2, 4, 8}
  {
    match pod
    case U8 => 1
    case U16 => 2
    case U32 => 4
    case U64 => 8
    case F32 => 4
    case F64 => 8
  }

  /** The unsigned integer Pods, whose arithmetic the model defines. */
  predicate IsInteger(pod: Pod) {
    pod in {U8, U16, U32, U64}
  }

  /**
   * A metadata byte whose top three bits name a Pod. Tags 6 and 7 have no
   * variant: decoding them is an unchecked transmute, so it is required here.
   */
  predicate HasPod(metadata: byte) {
    metadata / 32 < 6
  }

  /** Packs a Pod and, when given, an addressing mode into one byte. */
  function New(pod: Pod, mode: Option<AddressingMode>): (metadata: byte)
    ensures HasPod(metadata) && PodOf(metadata) == pod
    ensures mode.Some? ==> AddressingModeOf(metadata) == mode.value
    ensures mode.None? ==> AddressingModeOf(metadata) == Immediate
    ensures metadata % 16 == 0
    ensures mode.None? ==> metadata % 32 == 0
  {
    match mode
    case Some(m) => PodTag(pod) * 32 + ModeTag(m) * 16
    case None => PodTag(pod) * 32
  }

  /** The Pod named by bits 7-5. */
  function PodOf(metadata: byte): (pod: Pod)
    requires HasPod(metadata)
    ensures PodTag(pod) == metadata / 32
  {
    match metadata / 32
    case 0 => U8
    case 1 => U16
    case 2 => U32
    case 3 => U64
    case 4 => F32
    case _ => F64
  }

  /** The addressing mode named by bit 4; every byte has one. */
  function AddressingModeOf(metadata: byte): (mode: AddressingMode)
    ensures ModeTag(mode) == metadata / 16 % 2
  {
    if metadata / 16 % 2 == 0 then Immediate else Absolute
  }
}
