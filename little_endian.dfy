/** An unsigned 8-bit integer (`u8`), the unit of the program stream and the stack. */
module Bytes {
  newtype byte = b: int | 0 <= b < 0x100
}

/**
 * Little-endian byte order. Every multi-byte value the interpreter reads
 * (from the program stream or from the stack) is the unaligned load of a
 * native little-endian integer; this module gives that load and its inverse
 * store on byte sequences.
 */
module LittleEndian {
  import opened Bytes

  /** 256^n: the number of distinct values an n-byte integer can hold. */
  function Pow256(n: nat): (p: nat)
    ensures p >= 1
  {
    if n == 0 then 1 else 256 * Pow256(n - 1)
  }

  /** The ranges of the widths the interpreter uses: u8, u16, u32, u64. */
  lemma Pow256Widths()
    ensures Pow256(1) == 0x100 && Pow256(2) == 0x1_0000
    ensures Pow256(4) == 0x1_0000_0000 && Pow256(8) == 0x1_0000_0000_0000_0000
  {
  }

  /** The unsigned value of `bs` read least significant byte first. */
  function Decode(bs: seq<byte>): (v: nat)
    ensures v < Pow256(|bs|)
  {
    if |bs| == 0 then 0 else bs[0] as nat + 256 * Decode(bs[1..])
  }

  /** The `n` bytes of `v`, least significant first. */
  function Encode(v: nat, n: nat): (bs: seq<byte>)
    requires v < Pow256(n)
    ensures |bs| == n
  {
    if n == 0 then [] else [(v % 256) as byte] + Encode(v / 256, n - 1)
  }

  /** The low byte and the remaining bytes of a value are recovered by % and /. */
  lemma DigitSplit(b: nat, d: nat)
    requires b < 256
    ensures (b + 256 * d) % 256 == b && (b + 256 * d) / 256 == d
  {
  }

  /** Storing a value and loading it back gives the value. */
  lemma {:induction false} DecodeEncode(v: nat, n: nat)
    requires v < Pow256(n)
    ensures Decode(Encode(v, n)) == v
  {
    if n > 0 {
      var bs := Encode(v, n);
      var rest := Encode(v / 256, n - 1);
      assert bs == [(v % 256) as byte] + rest;
      assert bs[0] == (v % 256) as byte && bs[1..] == rest;
      DecodeEncode(v / 256, n - 1);
      assert Decode(bs) == bs[0] as nat + 256 * Decode(bs[1..]);
    }
  }

  /** Loading bytes and storing the value back gives the same bytes. */
  lemma {:induction false} EncodeDecode(bs: seq<byte>)
    ensures Encode(Decode(bs), |bs|) == bs
  {
    if |bs| > 0 {
      var d := Decode(bs[1..]);
      var b := bs[0] as nat;
      DigitSplit(b, d);
      EncodeDecode(bs[1..]);
      calc {
        Encode(Decode(bs), |bs|);
        Encode(b + 256 * d, |bs|);
        [((b + 256 * d) % 256) as byte] + Encode((b + 256 * d) / 256, |bs| - 1);
        [b as byte] + Encode(d, |bs| - 1);
        [bs[0]] + bs[1..];
      }
      assert [bs[0]] + bs[1..] == bs;
    }
  }

  /** Equal byte strings of one length decode alike, and distinct values encode apart. */
  lemma EncodeInjective(v: nat, u: nat, n: nat)
    requires v < Pow256(n) && u < Pow256(n)
    requires Encode(v, n) == Encode(u, n)
    ensures v == u
  {
    DecodeEncode(v, n);
    DecodeEncode(u, n);
  }
}
