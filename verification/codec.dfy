/** Typed values and their wire layout. BOOL is one raw byte, INT a signed
    16-bit and DINT a signed 32-bit integer sent most significant byte
    first, STR50 the 52-byte record of `StringRecord`. Integers live in host
    memory least significant byte first; `swapBinary` turns that layout into
    the controller's. */
module Codec {
  import opened Bytes
  import opened ByteOrder
  import StringRecord

  /** The four type names the command line accepts. */
  datatype VarType = Bool | Int | DInt | Str50

  /** The number of bytes one transfer of the type moves. */
  function WireSize(t: VarType): nat
  {
    match t
    case Bool => 1
    case Int => 2
    case DInt => 4
    case Str50 => StringRecord.RecordSize
  }

  /** A value of one of the four types. A BOOL is the raw byte the client
      holds in `boolValue` and prints as a number. */
  datatype Value = BoolValue(b: byte) | IntValue(i: int) | DIntValue(i: int) | StrValue(text: seq<byte>)
  {
    function TypeOf(): VarType
    {
      match this
      case BoolValue(_) => Bool
      case IntValue(_) => Int
      case DIntValue(_) => DInt
      case StrValue(_) => Str50
    }

    /** The value fits its C variable: `int16_t`, `int32_t`, or at most 50
        bytes of a C string. */
    predicate Valid()
    {
      match this
      case BoolValue(_) => true
      case IntValue(i) => IsInt16(i)
      case DIntValue(i) => IsInt32(i)
      case StrValue(text) => NoNul(text) && |text| <= StringRecord.Capacity
    }
  }

  predicate IsInt16(v: int) { -0x8000 <= v < 0x8000 }
  predicate IsInt32(v: int) { -0x8000_0000 <= v < 0x8000_0000 }

  // ---------------------------------------------------------------------
  // Integer value of bytes
  // ---------------------------------------------------------------------

  /** The number two bytes stand for, most significant first. */
  function BigEndian16(b: seq<byte>): nat
    requires |b| == 2
  {
    Nat8(b[0]) * 0x100 + Nat8(b[1])
  }

  /** The number four bytes stand for, most significant first. */
  function BigEndian32(b: seq<byte>): nat
    requires |b| == 4
  {
    ((Nat8(b[0]) * 0x100 + Nat8(b[1])) * 0x100 + Nat8(b[2])) * 0x100 + Nat8(b[3])
  }

  /** The number four bytes stand for, least significant first. */
  function LittleEndian32(b: seq<byte>): nat
    requires |b| == 4
  {
    Nat8(b[0]) + 0x100 * (Nat8(b[1]) + 0x100 * (Nat8(b[2]) + 0x100 * Nat8(b[3])))
  }

  /** The unsigned value of a word. */
  function Unsigned16(u: bv16): nat
  {
    Nat8(Lo16(u)) + 0x100 * Nat8(Hi16(u))
  }

  function Unsigned32(u: bv32): nat
  {
    LittleEndian32(HostStore32(u))
  }

  /** The word with a given unsigned value, assembled from its bytes. */
  function Word16(w: nat): bv16
    requires w < 0x1_0000
  {
    HostLoad16([ByteOf(w % 0x100), ByteOf(w / 0x100)])
  }

  function Word32(w: nat): bv32
    requires w < 0x1_0000_0000
  {
    HostLoad32(Digits32(w))
  }

  /** The four bytes of a 32-bit number, least significant first. */
  function Digits32(w: nat): (d: seq<byte>)
    requires w < 0x1_0000_0000
    ensures |d| == 4
  {
    var q1 := w / 0x100;
    var q2 := q1 / 0x100;
    var q3 := q2 / 0x100;
    [ByteOf(w % 0x100), ByteOf(q1 % 0x100), ByteOf(q2 % 0x100), ByteOf(q3)]
  }

  lemma Word16Value(w: nat)
    requires w < 0x1_0000
    ensures Unsigned16(Word16(w)) == w
  {
  }

  lemma {:induction false} Digits32Value(w: nat)
    requires w < 0x1_0000_0000
    ensures LittleEndian32(Digits32(w)) == w
  {
    var q1 := w / 0x100;
    var q2 := q1 / 0x100;
    assert w == w % 0x100 + 0x100 * q1;
    assert q1 == q1 % 0x100 + 0x100 * q2;
    assert q2 == q2 % 0x100 + 0x100 * (q2 / 0x100);
  }

  lemma Word32Value(w: nat)
    requires w < 0x1_0000_0000
    ensures Unsigned32(Word32(w)) == w
  {
    Digits32Value(w);
    HostLayout32RoundTrip(Word32(w), Digits32(w));
  }

  /** Two's complement: the signed value a word holds. */
  function Signed(w: nat, modulus: nat): int
  {
    if w < modulus / 2 then w else w - modulus
  }

  /** The contents of an `int16_t` variable holding `v`. */
  function Int16Bits(v: int): (u: bv16)
    requires IsInt16(v)
    ensures Unsigned16(u) == v % 0x1_0000
  {
    Word16Value(v % 0x1_0000);
    Word16(v % 0x1_0000)
  }

  /** The value an `int16_t` variable with contents `u` holds. */
  function Int16Value(u: bv16): (v: int)
    ensures IsInt16(v) && v % 0x1_0000 == Unsigned16(u)
  {
    var w := Unsigned16(u);
    SignedRange(w, 0x1_0000);
    Signed(w, 0x1_0000)
  }

  function Int32Bits(v: int): (u: bv32)
    requires IsInt32(v)
    ensures Unsigned32(u) == v % 0x1_0000_0000
  {
    Word32Value(v % 0x1_0000_0000);
    Word32(v % 0x1_0000_0000)
  }

  function Int32Value(u: bv32): (v: int)
    ensures IsInt32(v) && v % 0x1_0000_0000 == Unsigned32(u)
  {
    var w := Unsigned32(u);
    Unsigned32Bound(u);
    SignedRange(w, 0x1_0000_0000);
    Signed(w, 0x1_0000_0000)
  }

  lemma Unsigned32Bound(u: bv32)
    ensures Unsigned32(u) < 0x1_0000_0000
  {
    var b := HostStore32(u);
    LittleEndianBound(Nat8(b[0]), Nat8(b[1]), Nat8(b[2]), Nat8(b[3]));
  }

  lemma LittleEndianBound(d0: nat, d1: nat, d2: nat, d3: nat)
    requires d0 < 0x100 && d1 < 0x100 && d2 < 0x100 && d3 < 0x100
    ensures d0 + 0x100 * (d1 + 0x100 * (d2 + 0x100 * d3)) < 0x1_0000_0000
  {
  }

  /** The signed reading of an unsigned value lies in the signed range and
      has the unsigned value as its residue. */
  lemma SignedRange(w: nat, modulus: nat)
    requires modulus == 0x1_0000 || modulus == 0x1_0000_0000
    requires w < modulus
    ensures -(modulus / 2) <= Signed(w, modulus) < modulus / 2
    ensures Signed(w, modulus) % modulus == w
  {
  }

  /** The signed reading of a residue gives back the value in range. */
  lemma SignedResidue(v: int, modulus: nat)
    requires modulus == 0x1_0000 || modulus == 0x1_0000_0000
    requires -(modulus / 2) <= v < modulus / 2
    ensures Signed(v % modulus, modulus) == v
  {
    if v < 0 {
      assert v % modulus == v + modulus;
    }
  }

  /** A variable read back after being set holds the value it was set to. */
  lemma Int16BitsValue(v: int)
    requires IsInt16(v)
    ensures Int16Value(Int16Bits(v)) == v
  {
    var w := Unsigned16(Int16Bits(v));
    SignedResidue(v, 0x1_0000);
  }

  lemma Int32BitsValue(v: int)
    requires IsInt32(v)
    ensures Int32Value(Int32Bits(v)) == v
  {
    var w := Unsigned32(Int32Bits(v));
    SignedResidue(v, 0x1_0000_0000);
  }

  // ---------------------------------------------------------------------
  // INT and DINT on the wire
  // ---------------------------------------------------------------------

  /** Write path of INT: swap the variable, then send its two bytes as they
      lie in memory. The wire carries the two's-complement value most
      significant byte first. */
  function EncodeInt(v: int): (b: seq<byte>)
    requires IsInt16(v)
    ensures |b| == 2 && BigEndian16(b) == v % 0x1_0000
  {
    HostStore16(Swap16(Int16Bits(v)))
  }

  /** Read path of INT: receive two bytes into the variable, then swap it. */
  function DecodeInt(b: seq<byte>): (v: int)
    requires |b| == 2
    ensures IsInt16(v) && v % 0x1_0000 == BigEndian16(b)
  {
    Int16Value(Swap16(HostLoad16(b)))
  }

  /** Write path of DINT: swap the variable, then send its four bytes. */
  function EncodeDInt(v: int): (b: seq<byte>)
    requires IsInt32(v)
    ensures |b| == 4 && BigEndian32(b) == v % 0x1_0000_0000
  {
    var u := Int32Bits(v);
    var b := HostStore32(Swap32(u));
    assert b == [Byte32(u, 3), Byte32(u, 2), Byte32(u, 1), Byte32(u, 0)];
    b
  }

  /** Read path of DINT: receive four bytes into the variable, then swap it. */
  function DecodeDInt(b: seq<byte>): (v: int)
    requires |b| == 4
    ensures IsInt32(v) && v % 0x1_0000_0000 == BigEndian32(b)
  {
    var u := Swap32(HostLoad32(b));
    SwappedLoadValue(b);
    Int32Value(u)
  }

  /** Loading four bytes and swapping gives the word they stand for, most
      significant first. */
  lemma SwappedLoadValue(b: seq<byte>)
    requires |b| == 4
    ensures Unsigned32(Swap32(HostLoad32(b))) == BigEndian32(b)
  {
    var u := Swap32(HostLoad32(b));
    assert HostStore32(u) == [b[3], b[2], b[1], b[0]];
    ReversedDigits(Nat8(b[0]), Nat8(b[1]), Nat8(b[2]), Nat8(b[3]));
  }

  /** Reading digits least significant first from the reversed sequence is
      reading them most significant first. */
  lemma ReversedDigits(d0: nat, d1: nat, d2: nat, d3: nat)
    ensures d3 + 0x100 * (d2 + 0x100 * (d1 + 0x100 * d0)) == ((d0 * 0x100 + d1) * 0x100 + d2) * 0x100 + d3
  {
  }

  /** Different byte pairs stand for different numbers. */
  lemma BigEndian16Injective(a: seq<byte>, b: seq<byte>)
    requires |a| == 2 && |b| == 2 && BigEndian16(a) == BigEndian16(b)
    ensures a == b
  {
    DigitsUnique(Nat8(a[0]), Nat8(a[1]), Nat8(b[0]), Nat8(b[1]));
    Nat8Injective(a[0], b[0]);
    Nat8Injective(a[1], b[1]);
  }

  lemma BigEndian32Injective(a: seq<byte>, b: seq<byte>)
    requires |a| == 4 && |b| == 4 && BigEndian32(a) == BigEndian32(b)
    ensures a == b
  {
    BigEndian32Halves(a);
    BigEndian32Halves(b);
    HalvesUnique(BigEndian16(a[..2]), BigEndian16(a[2..]), BigEndian16(b[..2]), BigEndian16(b[2..]));
    BigEndian16Injective(a[..2], b[..2]);
    BigEndian16Injective(a[2..], b[2..]);
    assert a == a[..2] + a[2..] && b == b[..2] + b[2..];
  }

  /** A 32-bit number is its high half times 2^16 plus its low half. */
  lemma BigEndian32Halves(a: seq<byte>)
    requires |a| == 4
    ensures BigEndian32(a) == BigEndian16(a[..2]) * 0x1_0000 + BigEndian16(a[2..])
  {
  }

  /** The halves of a 32-bit number are unique. */
  lemma HalvesUnique(x: nat, d: nat, y: nat, e: nat)
    requires d < 0x1_0000 && e < 0x1_0000 && x * 0x1_0000 + d == y * 0x1_0000 + e
    ensures x == y && d == e
  {
  }

  /** The last base-256 digit and the rest of a number are unique. */
  lemma DigitsUnique(x: nat, d: nat, y: nat, e: nat)
    requires d < 0x100 && e < 0x100 && x * 0x100 + d == y * 0x100 + e
    ensures x == y && d == e
  {
  }

  /** Two values in the same signed range with the same residue are equal. */
  lemma ResidueUnique(x: int, y: int, modulus: nat)
    requires modulus == 0x1_0000 || modulus == 0x1_0000_0000
    requires -(modulus / 2) <= x < modulus / 2 && -(modulus / 2) <= y < modulus / 2
    requires x % modulus == y % modulus
    ensures x == y
  {
    SignedResidue(x, modulus);
    SignedResidue(y, modulus);
  }

  /** The INT and DINT layouts are inverse to each other, both ways round. */
  lemma IntRoundTrip(v: int)
    requires IsInt16(v)
    ensures DecodeInt(EncodeInt(v)) == v
  {
    var b := EncodeInt(v);
    ResidueUnique(DecodeInt(b), v, 0x1_0000);
  }

  lemma IntWireRoundTrip(b: seq<byte>)
    requires |b| == 2
    ensures EncodeInt(DecodeInt(b)) == b
  {
    var v := DecodeInt(b);
    SignedResidue(v, 0x1_0000);
    BigEndian16Injective(EncodeInt(v), b);
  }

  lemma DIntRoundTrip(v: int)
    requires IsInt32(v)
    ensures DecodeDInt(EncodeDInt(v)) == v
  {
    var b := EncodeDInt(v);
    ResidueUnique(DecodeDInt(b), v, 0x1_0000_0000);
  }

  lemma DIntWireRoundTrip(b: seq<byte>)
    requires |b| == 4
    ensures EncodeDInt(DecodeDInt(b)) == b
  {
    var v := DecodeDInt(b);
    SignedResidue(v, 0x1_0000_0000);
    BigEndian32Injective(EncodeDInt(v), b);
  }

  /** The INT wire bytes are the base-256 digits of the residue, most
      significant first. */
  lemma EncodeIntDigits(v: int)
    requires IsInt16(v)
    ensures EncodeInt(v) == [ByteOf(v % 0x1_0000 / 0x100), ByteOf(v % 0x100)]
  {
    var w := v % 0x1_0000;
    LowByteOfResidue(v);
    BigEndian16Digits(w);
    BigEndian16Injective(EncodeInt(v), [ByteOf(w / 0x100), ByteOf(w % 0x100)]);
  }

  /** The digits of a 16-bit number stand for that number. */
  lemma BigEndian16Digits(w: nat)
    requires w < 0x1_0000
    ensures BigEndian16([ByteOf(w / 0x100), ByteOf(w % 0x100)]) == w
  {
  }

  /** Reducing modulo 2^16 keeps the low byte. */
  lemma LowByteOfResidue(v: int)
    ensures v % 0x1_0000 % 0x100 == v % 0x100
  {
  }

  /** 300 = 0x012C goes on the wire as 0x01, 0x2C. */
  lemma EncodeIntExample(v: int)
    requires v == 300
    ensures EncodeInt(v) == [0x01, 0x2C]
  {
    EncodeIntDigits(v);
    DigitsOf300(v);
  }

  lemma DigitsOf300(v: int)
    requires v == 300
    ensures [ByteOf(v % 0x1_0000 / 0x100), ByteOf(v % 0x100)] == [0x01, 0x2C]
  {
    assert v % 0x1_0000 / 0x100 == 1 && v % 0x100 == 0x2C;
  }

  // ---------------------------------------------------------------------
  // All four types
  // ---------------------------------------------------------------------

  /** The bytes one write of the value sends. */
  function Encode(v: Value): (b: seq<byte>)
    requires v.Valid()
    ensures |b| == WireSize(v.TypeOf())
  {
    match v
    case BoolValue(x) => [x]
    case IntValue(i) => EncodeInt(i)
    case DIntValue(i) => EncodeDInt(i)
    case StrValue(text) => StringRecord.Encode(text)
  }

  /** The value one read of the type delivers. */
  function Decode(t: VarType, b: seq<byte>): (v: Value)
    requires |b| == WireSize(t)
    ensures v.Valid() && v.TypeOf() == t
  {
    match t
    case Bool => BoolValue(b[0])
    case Int => IntValue(DecodeInt(b))
    case DInt => DIntValue(DecodeDInt(b))
    case Str50 => StrValue(StringRecord.DecodeText(b))
  }

  /** Reading back what was written gives the value written. */
  lemma RoundTrip(v: Value)
    requires v.Valid()
    ensures Decode(v.TypeOf(), Encode(v)) == v
  {
    match v
    case BoolValue(_) =>
    case IntValue(i) => IntRoundTrip(i);
    case DIntValue(i) => DIntRoundTrip(i);
    case StrValue(text) => StringRecord.RoundTrip(text);
  }
}
