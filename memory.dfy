/**
 * The VM's stack: a fixed array of STACK_SIZE bytes, zero at creation, with
 * unaligned typed reads and writes at any in-bounds offset. A typed value of
 * `width` bytes is its little-endian encoding.
 *
 * This is the byte-addressed stack the bounds checks of src/vm/stack.rs describe.
 * The array is declared with 16-byte elements instead; `StridedRead` and
 * `StridedWrite` model that declaration and `StridedMissesOverlap` shows where
 * the two differ.
 */
module Memory {
  import opened Bytes
  import LittleEndian

  /** STACK_SIZE zero bytes, the contents of a new stack. */
  function Zeros(size: nat): (mem: seq<byte>)
    ensures |mem| == size && forall i :: 0 <= i < size ==> mem[i] == 0
  {
    seq(size, _ => 0)
  }

  /** `after` differs from `before` at most in bytes [offset, offset + width). */
  predicate SameOutside(before: seq<byte>, after: seq<byte>, offset: nat, width: nat) {
    |after| == |before| &&
    forall i :: 0 <= i < |before| && !(offset <= i < offset + width) ==> after[i] == before[i]
  }

  /** `read_at`: the `width`-byte value stored at `offset`; any offset is allowed (unaligned). */
  function Read(mem: seq<byte>, offset: nat, width: nat): (v: nat)
    requires offset + width <= |mem|
    ensures v < LittleEndian.Pow256(width)
  {
    LittleEndian.Decode(mem[offset..offset + width])
  }

  /** `write_at`: the contents after storing the `width`-byte value `v` at `offset`. */
  function Write(mem: seq<byte>, offset: nat, width: nat, v: nat): (mem': seq<byte>)
    requires offset + width <= |mem|
    requires v < LittleEndian.Pow256(width)
    ensures SameOutside(mem, mem', offset, width)
    ensures Read(mem', offset, width) == v
  {
    var mem' := mem[..offset] + LittleEndian.Encode(v, width) + mem[offset + width..];
    assert mem'[offset..offset + width] == LittleEndian.Encode(v, width);
    LittleEndian.DecodeEncode(v, width);
    mem'
  }

  /** A read of bytes a write does not touch sees the old value. */
  lemma ReadOverWrite(mem: seq<byte>, offset: nat, width: nat, v: nat, at: nat, size: nat)
    requires offset + width <= |mem| && v < LittleEndian.Pow256(width)
    requires at + size <= |mem|
    requires at + size <= offset || offset + width <= at
    ensures Read(Write(mem, offset, width, v), at, size) == Read(mem, at, size)
  {
    var mem' := Write(mem, offset, width, v);
    assert SameOutside(mem, mem', offset, width);
    assert mem'[at..at + size] == mem[at..at + size];
  }

  /** Writing back the value just read leaves the contents as they were. */
  lemma WriteRead(mem: seq<byte>, offset: nat, width: nat)
    requires offset + width <= |mem|
    ensures Write(mem, offset, width, Read(mem, offset, width)) == mem
  {
    LittleEndian.EncodeDecode(mem[offset..offset + width]);
    assert mem[..offset] + mem[offset..offset + width] + mem[offset + width..] == mem;
  }

  /** A later write to the same bytes hides an earlier one. */
  lemma WriteWrite(mem: seq<byte>, offset: nat, width: nat, v: nat, u: nat)
    requires offset + width <= |mem|
    requires v < LittleEndian.Pow256(width) && u < LittleEndian.Pow256(width)
    ensures Write(Write(mem, offset, width, v), offset, width, u) == Write(mem, offset, width, u)
  {
  }

  /** Every read of a new stack gives zero. */
  lemma {:induction false} ReadZeros(size: nat, offset: nat, width: nat)
    requires offset + width <= size
    ensures Read(Zeros(size), offset, width) == 0
  {
    ZerosDecode(Zeros(size)[offset..offset + width]);
  }

  lemma {:induction false} ZerosDecode(bs: seq<byte>)
    requires forall i :: 0 <= i < |bs| ==> bs[i] == 0
    ensures LittleEndian.Decode(bs) == 0
  {
    if |bs| > 0 {
      ZerosDecode(bs[1..]);
    }
  }

  /** A `u32` store of 0xFF00 at offset 0 is seen byte by byte: a `u8` load at 1 gives 0xFF. */
  lemma FlatSeesOverlap()
    ensures Read(Write(Zeros(12), 0, 4, 0xFF00), 1, 1) == 0xFF
  {
    LittleEndian.Pow256Widths();
    var mem := Write(Zeros(12), 0, 4, 0xFF00);
    assert LittleEndian.Encode(0xFF00, 4) == [0x00, 0xFF, 0x00, 0x00];
    assert mem[1..2] == [0xFF];
  }

  // ---------------------------------------------------------------------
  // The stack as src/vm/stack.rs declares it: `[Aligned<A16, u8>; STACK_SIZE]`

  /** Bytes per element of an array of `Aligned<A16, u8>`: one value byte, fifteen of padding. */
  const CELL: nat := 16

  /** `read_at` as declared: `as_ptr().add(offset)` steps over `offset` whole 16-byte elements. */
  function StridedRead(raw: seq<byte>, offset: nat, width: nat): (v: nat)
    requires CELL * offset + width <= |raw|
    ensures v < LittleEndian.Pow256(width)
    ensures v == Read(raw, CELL * offset, width)
  {
    Read(raw, CELL * offset, width)
  }

  /** `write_at` as declared: the store starts at byte `16 * offset` of the storage. */
  function StridedWrite(raw: seq<byte>, offset: nat, width: nat, v: nat): (raw': seq<byte>)
    requires CELL * offset + width <= |raw|
    requires v < LittleEndian.Pow256(width)
    ensures SameOutside(raw, raw', CELL * offset, width)
    ensures StridedRead(raw', offset, width) == v
  {
    Write(raw, CELL * offset, width, v)
  }

  /** As declared, accesses of at most 16 bytes at different offsets never share a byte. */
  lemma StridedIsolated(raw: seq<byte>, offset: nat, width: nat, v: nat, at: nat, size: nat)
    requires CELL * offset + width <= |raw| && v < LittleEndian.Pow256(width)
    requires CELL * at + size <= |raw|
    requires width <= CELL && size <= CELL && at != offset
    ensures StridedRead(StridedWrite(raw, offset, width, v), at, size) == StridedRead(raw, at, size)
  {
    ReadOverWrite(raw, CELL * offset, width, v, CELL * at, size);
  }

  /**
   * The same `u32` store at 0 and `u8` load at 1 on a 12-element stack as declared:
   * the load reads the untouched value byte of element 1, zero after `Stack::new`.
   */
  lemma StridedMissesOverlap(raw: seq<byte>)
    requires |raw| == CELL * 12 && raw[CELL] == 0
    ensures StridedRead(StridedWrite(raw, 0, 4, 0xFF00), 1, 1) == 0
  {
    LittleEndian.Pow256Widths();
    StridedIsolated(raw, 0, 4, 0xFF00, 1, 1);
    assert raw[CELL..CELL + 1] == [0];
  }

  /** The stack itself: a fixed-size byte array updated in place. */
  class Stack {
    const bytes: array<byte>

    /** `Stack::new` (and `Default::default`): every byte zero. */
    constructor (size: nat)
      ensures fresh(bytes)
      ensures bytes[..] == Zeros(size)
    {
      bytes := new byte[size](_ => 0);
    }

    /** `read_at` borrows the stack immutably: a function of its contents. */
    function ReadAt(offset: nat, width: nat): (v: nat)
      reads bytes
      requires offset + width <= bytes.Length
      ensures v < LittleEndian.Pow256(width)
    {
      Read(bytes[..], offset, width)
    }

    /** `write_at`: one unaligned store of `width` bytes at `offset`. */
    method WriteAt(offset: nat, width: nat, v: nat)
      requires offset + width <= bytes.Length
      requires v < LittleEndian.Pow256(width)
      modifies bytes
      ensures bytes[..] == Write(old(bytes[..]), offset, width, v)
    {
      var encoded := LittleEndian.Encode(v, width);
      forall i | offset <= i < offset + width {
        bytes[i] := encoded[i - offset];
      }
      assert bytes[..] == old(bytes[..])[..offset] + encoded + old(bytes[..])[offset + width..];
    }
  }
}
