/**
 * The append-only byte writer `Buffer` from bpl_lib/helpers/Util. That module
 * is not part of this model; its behaviour is assumed here: `write_byte`,
 * `write_int` and `write_long` append an unsigned little-endian integer of 1,
 * 4 and 8 bytes and fail (writing nothing) when the value does not fit, as
 * Python's `struct.pack` does; `write_bytes` appends raw bytes.
 */
module ByteBuffer {

  newtype byte = b: int | 0 <= b < 256

  const ByteWidth: nat := 1
  const IntWidth: nat := 4
  const LongWidth: nat := 8

  function Pow256(n: nat): (r: nat)
    ensures r >= 1
  {
    if n == 0 then 1 else 256 * Pow256(n - 1)
  }

  /** True when `v` can be written as an unsigned integer of `width` bytes. */
  predicate Fits(v: int, width: nat) {
    0 <= v < Pow256(width)
  }

  /** The `width` low-order bytes of `v`, least significant first. */
  function LittleEndian(v: nat, width: nat): (r: seq<byte>)
    ensures |r| == width
  {
    if width == 0 then [] else [(v % 256) as byte] + LittleEndian(v / 256, width - 1)
  }

  /** The unsigned integer whose little-endian bytes are `s`. */
  function FromLittleEndian(s: seq<byte>): (v: nat)
    ensures v < Pow256(|s|)
  {
    if s == [] then 0 else s[0] as nat + 256 * FromLittleEndian(s[1..])
  }

  /** Reading back a written value gives the value, when it fits. */
  lemma {:induction false} LittleEndianRoundTrip(v: nat, width: nat)
    requires Fits(v, width)
    ensures FromLittleEndian(LittleEndian(v, width)) == v
  {
    if width > 0 {
      var q := v / 256;
      LittleEndianRoundTrip(q, width - 1);
      var bytes := LittleEndian(v, width);
      assert bytes[1..] == LittleEndian(q, width - 1);
    }
  }

  /** Writing back a read value gives the same bytes. */
  lemma {:induction false} FromLittleEndianRoundTrip(s: seq<byte>)
    ensures LittleEndian(FromLittleEndian(s), |s|) == s
  {
    if s != [] {
      FromLittleEndianRoundTrip(s[1..]);
      var v := FromLittleEndian(s);
      DivMod256(FromLittleEndian(s[1..]), s[0] as nat);
      assert LittleEndian(v, |s|) == [s[0]] + LittleEndian(FromLittleEndian(s[1..]), |s| - 1);
      assert s == [s[0]] + s[1..];
    }
  }

  lemma DivMod256(q: nat, m: nat)
    requires m < 256
    ensures (256 * q + m) / 256 == q && (256 * q + m) % 256 == m
  {
  }

  /** `n` zero bytes, Python's `bytes(n)`. */
  function Zeros(n: nat): (r: seq<byte>)
    ensures |r| == n
    ensures forall i :: 0 <= i < n ==> r[i] == 0
  {
    seq(n, _ => 0)
  }

  class Buffer {
    /** Everything written so far, in order. */
    var bytes: seq<byte>

    constructor ()
      ensures bytes == []
    {
      bytes := [];
    }

    method WriteByte(v: int) returns (ok: bool)
      modifies this
      ensures ok == Fits(v, ByteWidth)
      ensures bytes == if ok then old(bytes) + LittleEndian(v, ByteWidth) else old(bytes)
    {
      ok := Fits(v, ByteWidth);
      if ok {
        bytes := bytes + LittleEndian(v, ByteWidth);
      }
    }

    method WriteInt(v: int) returns (ok: bool)
      modifies this
      ensures ok == Fits(v, IntWidth)
      ensures bytes == if ok then old(bytes) + LittleEndian(v, IntWidth) else old(bytes)
    {
      ok := Fits(v, IntWidth);
      if ok {
        bytes := bytes + LittleEndian(v, IntWidth);
      }
    }

    method WriteLong(v: int) returns (ok: bool)
      modifies this
      ensures ok == Fits(v, LongWidth)
      ensures bytes == if ok then old(bytes) + LittleEndian(v, LongWidth) else old(bytes)
    {
      ok := Fits(v, LongWidth);
      if ok {
        bytes := bytes + LittleEndian(v, LongWidth);
      }
    }

    method WriteBytes(b: seq<byte>)
      modifies this
      ensures bytes == old(bytes) + b
    {
      bytes := bytes + b;
    }
  }
}
