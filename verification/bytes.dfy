/** Bytes and NUL-terminated C strings, the raw material of the client. */
module Bytes {

  /** One octet, as stored in the client's buffers and sent on the wire. */
  type byte = bv8

  /** A C string as the process receives it in `argv`: its bytes up to, not
      including, the terminating NUL, so none of them is NUL. */
  type CString = s: seq<byte> | NoNul(s) witness []

  predicate NoNul(s: seq<byte>)
  {
    forall i | 0 <= i < |s| :: s[i] != 0
  }

  /** The numeric value of a byte. */
  function Nat8(b: byte): (n: nat)
    ensures n < 256
  {
    b as int
  }

  /** The byte holding a small number; the inverse of `Nat8`. It is `n as bv8`,
      built by counting up from zero because the verifier handles the
      direct conversion from `int` to `bv8` poorly. */
  function ByteOf(n: nat): (b: byte)
    requires n < 256
    ensures Nat8(b) == n
  {
    if n == 0 then 0 else Next(ByteOf(n - 1))
  }

  /** The byte after `b`, when there is one. */
  function Next(b: byte): (c: byte)
    requires Nat8(b) < 255
    ensures Nat8(c) == Nat8(b) + 1
  {
    b + 1
  }

  /** Bytes with the same numeric value are equal. */
  lemma Nat8Injective(a: byte, b: byte)
    requires Nat8(a) == Nat8(b)
    ensures a == b
  {
  }

  /** `n` zero bytes: the contents of a zero-initialised global buffer. */
  function Zeros(n: nat): (z: seq<byte>)
    ensures |z| == n
    ensures forall i | 0 <= i < n :: z[i] == 0
  {
    seq(n, _ => 0)
  }

  /** What `strlen`, `printf("%s")` and friends see in a byte array: the bytes
      before the first NUL, or all of them when the array holds no NUL. */
  function UpToNul(s: seq<byte>): (r: seq<byte>)
    ensures |r| <= |s| && r == s[..|r|]
    ensures NoNul(r)
    ensures |r| < |s| ==> s[|r|] == 0
  {
    if |s| == 0 || s[0] == 0 then []
    else [s[0]] + UpToNul(s[1..])
  }

  /** A byte array without NUL is read back whole. */
  lemma {:induction false} UpToNulOfCString(s: seq<byte>)
    requires NoNul(s)
    ensures UpToNul(s) == s
  {
    if |s| > 0 {
      UpToNulOfCString(s[1..]);
    }
  }

  /** Whatever follows the first NUL is never read. */
  lemma {:induction false} UpToNulIgnoresTail(s: seq<byte>, rest: seq<byte>)
    ensures UpToNul(s + [0] + rest) == UpToNul(s)
  {
    if |s| == 0 {
      assert (s + [0] + rest)[0] == 0;
    } else if s[0] == 0 {
      assert (s + [0] + rest)[0] == 0;
    } else {
      assert (s + [0] + rest)[1..] == s[1..] + [0] + rest;
      UpToNulIgnoresTail(s[1..], rest);
    }
  }

  /** A C string followed by a NUL is read back as exactly that string. */
  lemma UpToNulStopsAtTerminator(s: seq<byte>, rest: seq<byte>)
    requires NoNul(s)
    ensures UpToNul(s + [0] + rest) == s
  {
    UpToNulIgnoresTail(s, rest);
    UpToNulOfCString(s);
  }
}
