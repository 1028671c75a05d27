/** The two `swapBinary` overloads and the little-endian host memory layout
    they correct for. The controller stores integers most significant byte
    first; the host keeps them least significant byte first. */
module ByteOrder {
  import opened Bytes

  /** Low and high byte of a 16-bit value. */
  function Lo16(u: bv16): byte { (u & 0xFF) as bv8 }
  function Hi16(u: bv16): byte { (u >> 8) as bv8 }

  /** Byte `k` of a 32-bit value, counting from the least significant. */
  function Byte32(u: bv32, k: nat): byte
    requires k < 4
  {
    if k == 0 then (u & 0xFF) as bv8
    else if k == 1 then ((u >> 8) & 0xFF) as bv8
    else if k == 2 then ((u >> 16) & 0xFF) as bv8
    else (u >> 24) as bv8
  }

  /** `swapBinary(uint16_t&)`: exchanges the two bytes. The C expression works
      on the promoted `int` and is truncated on assignment; bv16 shifts
      truncate the same way. */
  function Swap16(u: bv16): (r: bv16)
    ensures Hi16(r) == Lo16(u)
    ensures Lo16(r) == Hi16(u)
  {
    (u >> 8) | (u << 8)
  }

  /** `swapBinary(uint32_t&)`: a swap of the bytes inside each halfword
      followed by a swap of the halfwords, which reverses all four bytes. */
  function Swap32(u: bv32): (r: bv32)
    ensures Byte32(r, 0) == Byte32(u, 3)
    ensures Byte32(r, 1) == Byte32(u, 2)
    ensures Byte32(r, 2) == Byte32(u, 1)
    ensures Byte32(r, 3) == Byte32(u, 0)
  {
    var tmp := ((u << 8) & 0xFF00FF00) | ((u >> 8) & 0x00FF00FF);
    (tmp << 16) | (tmp >> 16)
  }

  /** Swapping twice restores the value: the write path relies on it to print
      the value it has just sent. */
  lemma Swap16Involution(u: bv16)
    ensures Swap16(Swap16(u)) == u
  {
  }

  lemma Swap32Involution(u: bv32)
    ensures Swap32(Swap32(u)) == u
  {
  }

  /** The documented example: 300 = 0x012C becomes 0x2C01. */
  lemma Swap16Example()
    ensures Swap16(0x012C) == 0x2C01
  {
  }

  /** A 16-bit variable as it lies in host memory: low byte first. */
  function HostStore16(u: bv16): (b: seq<byte>)
    ensures |b| == 2 && HostLoad16(b) == u
  {
    [Lo16(u), Hi16(u)]
  }

  /** The 16-bit value a host reads from two bytes of memory. */
  function HostLoad16(b: seq<byte>): (u: bv16)
    requires |b| == 2
    ensures Lo16(u) == b[0] && Hi16(u) == b[1]
  {
    (b[0] as bv16) | ((b[1] as bv16) << 8)
  }

  /** A 32-bit variable as it lies in host memory: least significant byte first. */
  function HostStore32(u: bv32): (b: seq<byte>)
    ensures |b| == 4 && HostLoad32(b) == u
  {
    [Byte32(u, 0), Byte32(u, 1), Byte32(u, 2), Byte32(u, 3)]
  }

  /** The 32-bit value a host reads from four bytes of memory. */
  function HostLoad32(b: seq<byte>): (u: bv32)
    requires |b| == 4
    ensures Byte32(u, 0) == b[0] && Byte32(u, 1) == b[1] && Byte32(u, 2) == b[2] && Byte32(u, 3) == b[3]
  {
    (b[0] as bv32) | ((b[1] as bv32) << 8) | ((b[2] as bv32) << 16) | ((b[3] as bv32) << 24)
  }

  /** Storing and loading are inverse to each other, in both directions. */
  lemma HostLayout16RoundTrip(u: bv16, b: seq<byte>)
    requires |b| == 2
    ensures HostLoad16(HostStore16(u)) == u
    ensures HostStore16(HostLoad16(b)) == b
  {
  }

  lemma HostLayout32RoundTrip(u: bv32, b: seq<byte>)
    requires |b| == 4
    ensures HostLoad32(HostStore32(u)) == u
    ensures HostStore32(HostLoad32(b)) == b
  {
  }
}
