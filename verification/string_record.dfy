/** The STR50 record: a fixed-capacity string as the controller stores it.
    Byte 0 holds the capacity (50), byte 1 the actual length, and bytes
    2..51 the content. The read path copies the record into the 50-byte
    array `strValue`; the write path builds the record in the 52-byte array
    `strBuffer`. Both arrays are zero-initialised globals used once per run. */
module StringRecord {
  import opened Wrappers
  import opened Bytes

  /** STR_LEN: the capacity of the string. */
  const Capacity: nat := 50
  /** Byte 0 of every record written: the capacity, `Nat8(CapacityByte) == Capacity`
      (as the contract of `Encode` states). */
  const CapacityByte: byte := 50

  /** The record on the wire: two header bytes and the content. */
  const RecordSize: nat := Capacity + 2

  /** The two arrays the record code works on. */
  datatype Buffer = StrValueArray | StrBufferArray

  /** An access outside the bounds of one of the arrays. */
  datatype Fault = OutOfBounds(buffer: Buffer, index: nat)

  /** `min(strBuffer[1], STR_LEN)`: the length header, clamped to the capacity. */
  function ClampedLength(rec: seq<byte>): (len: nat)
    requires |rec| == RecordSize
    ensures len <= Capacity && len <= Nat8(rec[1])
    ensures len == Capacity || len == Nat8(rec[1])
  {
    if Nat8(rec[1]) < Capacity then Nat8(rec[1]) else Capacity
  }

  // ---------------------------------------------------------------------
  // Read path
  // ---------------------------------------------------------------------

  /** The read loop: copies the clamped number of content bytes of the
      record into `strValue` (whose earlier contents are `prior`) and
      NUL-terminates only when there is room below the capacity. Every
      index the loop uses is checked against the array bounds, so no byte
      beyond index 51 of the record is read, whatever the header says. */
  method ReadStrValue(rec: seq<byte>, prior: seq<byte>) returns (strValue: seq<byte>, len: nat)
    requires |rec| == RecordSize && |prior| == Capacity
    ensures len <= Capacity && len <= Nat8(rec[1])
    ensures len == Capacity || len == Nat8(rec[1])
    ensures |strValue| == Capacity
    ensures forall i | 0 <= i < len :: strValue[i] == rec[i + 2]
    ensures len < Capacity ==> strValue[len] == 0
    ensures forall i | len < i < Capacity :: strValue[i] == prior[i]
  {
    len := if Nat8(rec[1]) < Capacity then Nat8(rec[1]) else Capacity;
    strValue := prior;
    var i := 0;
    while i < len
      invariant i <= len
      invariant |strValue| == Capacity
      invariant forall j | 0 <= j < i :: strValue[j] == rec[j + 2]
      invariant forall j | i <= j < Capacity :: strValue[j] == prior[j]
    {
      strValue := strValue[i := rec[i + 2]];
      i := i + 1;
    }
    if i < Capacity {
      strValue := strValue[i := 0];
    }
  }

  /** What `printf("%s", strValue)` prints: the bytes up to the first NUL.
      When all 50 bytes are non-zero the scan runs past the end of the array. */
  function PrintedStrValue(strValue: seq<byte>): (r: Result<seq<byte>, Fault>)
    requires |strValue| == Capacity
    ensures r.Ok? <==> !NoNul(strValue)
    ensures r.Ok? ==> |r.value| < Capacity && NoNul(r.value)
    ensures r.Ok? ==> r.value == strValue[..|r.value|] && strValue[|r.value|] == 0
    ensures r.Err? ==> r.error == OutOfBounds(StrValueArray, Capacity)
  {
    var text := UpToNul(strValue);
    if |text| < Capacity then Ok(text) else Err(OutOfBounds(StrValueArray, Capacity))
  }

  /** The string a read delivers: the clamped content, up to its first NUL.
      This is what printing a properly terminated copy of the content shows. */
  function DecodeText(rec: seq<byte>): (text: seq<byte>)
    requires |rec| == RecordSize
    ensures |text| <= ClampedLength(rec)
    ensures NoNul(text)
    ensures text == rec[2..2 + |text|]
    ensures |text| < ClampedLength(rec) ==> rec[2 + |text|] == 0
  {
    UpToNul(rec[2..2 + ClampedLength(rec)])
  }

  /** When the clamped length is below the capacity, printing the array the
      read loop filled shows exactly the decoded text. */
  lemma PrintedAgreesBelowCapacity(rec: seq<byte>, strValue: seq<byte>, len: nat)
    requires |rec| == RecordSize && |strValue| == Capacity
    requires len == ClampedLength(rec) && len < Capacity
    requires forall i | 0 <= i < len :: strValue[i] == rec[i + 2]
    requires strValue[len] == 0
    ensures PrintedStrValue(strValue) == Ok(DecodeText(rec))
  {
    assert strValue == rec[2..2 + len] + [0] + strValue[len + 1..];
    UpToNulIgnoresTail(rec[2..2 + len], strValue[len + 1..]);
  }

  /** A full record (length header 50 or more) whose 50 content bytes are
      all non-zero leaves `strValue` without a terminator: printing it reads
      past the end of the array. */
  lemma PrintedOverrunsWhenFull(rec: seq<byte>, strValue: seq<byte>)
    requires |rec| == RecordSize && |strValue| == Capacity
    requires Nat8(rec[1]) >= Capacity
    requires NoNul(rec[2..])
    requires forall i | 0 <= i < Capacity :: strValue[i] == rec[i + 2]
    ensures PrintedStrValue(strValue) == Err(OutOfBounds(StrValueArray, Capacity))
    ensures |DecodeText(rec)| == Capacity
  {
    assert strValue == rec[2..];
    assert rec[2..2 + ClampedLength(rec)] == rec[2..];
  }

  /** Header byte 200 is clamped: the decoded text is the 50 content bytes. */
  lemma DecodeClampsOversizedHeader(rec: seq<byte>)
    requires |rec| == RecordSize && rec[1] == 200
    requires NoNul(rec[2..])
    ensures DecodeText(rec) == rec[2..]
  {
    assert rec[2..2 + ClampedLength(rec)] == rec[2..];
    UpToNulOfCString(rec[2..]);
  }

  // ---------------------------------------------------------------------
  // Write path, as intended
  // ---------------------------------------------------------------------

  /** The record for a string of at most 50 bytes: header 50, the string's
      length, the string, and the zero bytes the global buffer starts with. */
  function Encode(s: CString): (rec: seq<byte>)
    requires |s| <= Capacity
    ensures |rec| == RecordSize
    ensures Nat8(rec[0]) == Capacity && Nat8(rec[1]) == |s|
    ensures rec[2..2 + |s|] == s
    ensures forall i | 2 + |s| <= i < RecordSize :: rec[i] == 0
  {
    [CapacityByte, ByteOf(|s|)] + s + Zeros(Capacity - |s|)
  }

  /** Reading back a written record gives the written string. */
  lemma RoundTrip(s: CString)
    requires |s| <= Capacity
    ensures DecodeText(Encode(s)) == s
  {
    var rec := Encode(s);
    assert ClampedLength(rec) == |s|;
    UpToNulOfCString(s);
  }

  /** A record in the canonical shape (capacity header, length at most 50,
      content without NUL, zero padding) is what encoding its text produces. */
  lemma CanonicalRecordIsEncoding(rec: seq<byte>)
    requires |rec| == RecordSize
    requires Nat8(rec[0]) == Capacity && Nat8(rec[1]) <= Capacity
    requires NoNul(rec[2..2 + Nat8(rec[1])])
    requires forall i | 2 + Nat8(rec[1]) <= i < RecordSize :: rec[i] == 0
    ensures |DecodeText(rec)| <= Capacity
    ensures Encode(DecodeText(rec)) == rec
  {
    var n := Nat8(rec[1]);
    CanonicalText(rec);
    var e := Encode(rec[2..2 + n]);
    Nat8Injective(e[0], rec[0]);
    Nat8Injective(e[1], rec[1]);
    SameRecord(e, rec, n);
  }

  /** The text of a record whose length header is at most 50 and whose
      content is free of NUL is exactly that content. */
  lemma CanonicalText(rec: seq<byte>)
    requires |rec| == RecordSize && Nat8(rec[1]) <= Capacity
    requires NoNul(rec[2..2 + Nat8(rec[1])])
    ensures DecodeText(rec) == rec[2..2 + Nat8(rec[1])]
  {
    assert ClampedLength(rec) == Nat8(rec[1]);
    UpToNulOfCString(rec[2..2 + Nat8(rec[1])]);
  }

  /** Two records agree when their headers, their first `n` content bytes
      and their zero padding after those agree. */
  lemma SameRecord(a: seq<byte>, b: seq<byte>, n: nat)
    requires |a| == RecordSize && |b| == RecordSize && n <= Capacity
    requires a[0] == b[0] && a[1] == b[1] && a[2..2 + n] == b[2..2 + n]
    requires forall i | 2 + n <= i < RecordSize :: a[i] == 0 && b[i] == 0
    ensures a == b
  {
    forall i | 0 <= i < RecordSize
      ensures a[i] == b[i]
    {
      if 2 <= i < 2 + n {
        assert a[i] == a[2..2 + n][i - 2] && b[i] == b[2..2 + n][i - 2];
      }
    }
  }

  // ---------------------------------------------------------------------
  // Write path, as written
  // ---------------------------------------------------------------------

  /** `strncpy(strValue, arg, STR_LEN)` followed by `strValue[strlen(arg)] = 0`.
      `strncpy` pads with NUL up to 50 bytes; the explicit terminator lands
      at index 50, one past the array, when the argument has 50 bytes. */
  function StrValueForWrite(arg: CString): (r: Result<seq<byte>, Fault>)
    requires |arg| <= Capacity
    ensures r.Ok? <==> |arg| < Capacity
    ensures r.Ok? ==> |r.value| == Capacity && r.value[..|arg|] == arg
    ensures r.Ok? ==> forall i | |arg| <= i < Capacity :: r.value[i] == 0
    ensures r.Err? ==> r.error == OutOfBounds(StrValueArray, Capacity)
  {
    var copied := arg + Zeros(Capacity - |arg|);
    if |arg| < Capacity then Ok(copied[|arg| := 0])
    else Err(OutOfBounds(StrValueArray, |arg|))
  }

  /** The copy loop `for (i = 0; i < strBuffer[i]; i++) strBuffer[i+2] = strValue[i];`
      from iteration `i` on. Its test compares `i` with byte `i` of the
      buffer being filled, not with the length header; an iteration at
      `i == 50` writes `strBuffer[52]`, past the end of the buffer. */
  function CopyLoop(strValue: seq<byte>, strBuffer: seq<byte>, i: nat): (r: Result<seq<byte>, Fault>)
    requires |strValue| == Capacity && |strBuffer| == RecordSize && i <= Capacity
    ensures r.Ok? ==> |r.value| == RecordSize && r.value[..i + 2] == strBuffer[..i + 2]
    ensures r.Err? ==> r.error == OutOfBounds(StrBufferArray, RecordSize)
    decreases Capacity - i
  {
    if !(i < Nat8(strBuffer[i])) then Ok(strBuffer)
    else if i == Capacity then Err(OutOfBounds(StrBufferArray, i + 2))
    else CopyLoop(strValue, strBuffer[i + 2 := strValue[i]], i + 1)
  }

  /** The write path as written: terminate, set the header to 50 and
      `strlen(strValue)`, then run the copy loop over the zeroed buffer. */
  function EncodeAsWritten(arg: CString): (r: Result<seq<byte>, Fault>)
    requires |arg| <= Capacity
    ensures |arg| == Capacity ==> r == Err(OutOfBounds(StrValueArray, Capacity))
    ensures r.Ok? ==> |r.value| == RecordSize && Nat8(r.value[0]) == Capacity && Nat8(r.value[1]) == |arg|
  {
    match StrValueForWrite(arg)
    case Err(f) => Err(f)
    case Ok(strValue) =>
      var len := |UpToNul(strValue)|;
      assert len == |arg| by {
        assert strValue == arg + [0] + strValue[|arg| + 1..];
        UpToNulStopsAtTerminator(arg, strValue[|arg| + 1..]);
      }
      CopyLoop(strValue, [CapacityByte, ByteOf(len)] + Zeros(Capacity), 0)
  }

  /** The buffer before iteration `i` of the copy loop, when every earlier
      iteration ran: header, the first `i` bytes of `strValue`, zeros. */
  function LoopState(strValue: seq<byte>, n: nat, i: nat): (buf: seq<byte>)
    requires |strValue| == Capacity && n <= Capacity && i <= Capacity
    ensures |buf| == RecordSize
  {
    [CapacityByte, ByteOf(n)] + strValue[..i] + Zeros(Capacity - i)
  }

  /** Whether the loop test holds at iteration `i` of that run: byte 0 is
      the capacity, byte 1 the length, and byte `i >= 2` the copy of
      `strValue[i - 2]` made two iterations earlier. */
  predicate LoopTestHolds(strValue: seq<byte>, n: nat, i: nat)
    requires |strValue| == Capacity && i <= Capacity
  {
    if i == 0 then 0 < Capacity
    else if i == 1 then 1 < n
    else i < Nat8(strValue[i - 2])
  }

  /** The outcome of the copy loop: it copies `strValue[..stop]` where `stop`
      is the first iteration whose test fails, and overruns the buffer when
      the test still holds at iteration 50. */
  lemma {:induction false} CopyLoopOutcome(strValue: seq<byte>, n: nat, i: nat, stop: nat)
    requires |strValue| == Capacity && n <= Capacity
    requires i <= stop <= Capacity + 1 && i <= Capacity
    requires forall m | i <= m < stop :: LoopTestHolds(strValue, n, m)
    requires stop <= Capacity ==> !LoopTestHolds(strValue, n, stop)
    ensures CopyLoop(strValue, LoopState(strValue, n, i), i) ==
      if stop <= Capacity then Ok(LoopState(strValue, n, stop))
      else Err(OutOfBounds(StrBufferArray, RecordSize))
    decreases Capacity - i
  {
    var buf := LoopState(strValue, n, i);
    if i == 0 {
      assert buf[0] == CapacityByte;
    } else if i == 1 {
      assert Nat8(buf[1]) == n;
    } else {
      assert buf[i] == strValue[i - 2];
    }
    assert (i < Nat8(buf[i])) == LoopTestHolds(strValue, n, i);
    if i < stop && i < Capacity {
      assert buf[i + 2 := strValue[i]] == LoopState(strValue, n, i + 1) by {
        assert strValue[..i + 1] == strValue[..i] + [strValue[i]];
      }
      CopyLoopOutcome(strValue, n, i + 1, stop);
    }
  }

  /** The padded `strValue` of an argument shorter than the capacity. */
  function Padded(arg: CString): (strValue: seq<byte>)
    requires |arg| < Capacity
    ensures |strValue| == Capacity
  {
    arg + Zeros(Capacity - |arg|)
  }

  lemma EncodeAsWrittenRuns(arg: CString)
    requires |arg| < Capacity
    ensures EncodeAsWritten(arg) == CopyLoop(Padded(arg), LoopState(Padded(arg), |arg|, 0), 0)
  {
    var v := Padded(arg);
    assert StrValueForWrite(arg) == Ok(v) by {
      assert v[|arg| := 0] == v;
    }
    assert v == arg + [0] + v[|arg| + 1..];
    UpToNulStopsAtTerminator(arg, v[|arg| + 1..]);
    assert [CapacityByte, ByteOf(|arg|)] + Zeros(Capacity) == LoopState(v, |arg|, 0);
  }

  /** The write path as written agrees with the intended encoding for strings
      of at most 48 bytes whose byte `k` exceeds `k + 2` (any string of
      letters, for example): the loop then stops two bytes after the content. */
  lemma EncodeAsWrittenAgrees(arg: CString)
    requires |arg| <= 48
    requires forall k | 0 <= k < |arg| :: Nat8(arg[k]) > k + 2
    ensures EncodeAsWritten(arg) == Ok(Encode(arg))
  {
    var n := |arg|;
    var v := Padded(arg);
    var stop := if n <= 1 then 1 else n + 2;
    AgreeingTests(arg, stop);
    CopyLoopOutcome(v, n, 0, stop);
    EncodeAsWrittenRuns(arg);
    PaddedLoopState(arg, stop);
  }

  /** The loop tests of such a string hold up to two bytes after its
      content (one byte, for strings shorter than two) and fail there. */
  lemma AgreeingTests(arg: CString, stop: nat)
    requires |arg| <= 48
    requires forall k | 0 <= k < |arg| :: Nat8(arg[k]) > k + 2
    requires stop == if |arg| <= 1 then 1 else |arg| + 2
    ensures forall m | 0 <= m < stop :: LoopTestHolds(Padded(arg), |arg|, m)
    ensures !LoopTestHolds(Padded(arg), |arg|, stop)
  {
    var v := Padded(arg);
    forall m | 0 <= m < stop
      ensures LoopTestHolds(v, |arg|, m)
    {
      if m >= 2 {
        assert v[m - 2] == arg[m - 2];
      }
    }
    if stop >= 2 {
      assert v[stop - 2] == 0;
    }
  }

  /** Once the loop has copied the whole content and some of the padding,
      the buffer is the intended record. */
  lemma PaddedLoopState(arg: CString, stop: nat)
    requires |arg| < Capacity && |arg| <= stop <= Capacity
    ensures LoopState(Padded(arg), |arg|, stop) == Encode(arg)
  {
    var n := |arg|;
    assert Padded(arg)[..stop] == arg + Zeros(stop - n);
    assert Zeros(stop - n) + Zeros(Capacity - stop) == Zeros(Capacity - n);
  }

  /** Forty '!' bytes (0x21 = 33): at iteration 33 the test reads the copy
      of byte 31, 33, and stops, so bytes 33..39 are never copied and
      reading the record back yields 33 bytes instead of 40. */
  lemma EncodeAsWrittenTruncates(arg: CString)
    requires |arg| == 40 && forall k | 0 <= k < |arg| :: arg[k] == 0x21
    ensures EncodeAsWritten(arg).Ok?
    ensures DecodeText(EncodeAsWritten(arg).value) == arg[..33]
    ensures DecodeText(EncodeAsWritten(arg).value) != arg
  {
    var v := Padded(arg);
    ExclamationTests(arg);
    CopyLoopOutcome(v, 40, 0, 33);
    EncodeAsWrittenRuns(arg);
    TruncatedText(arg);
  }

  /** The loop tests for forty '!' bytes hold up to iteration 32 and fail
      at 33. */
  lemma ExclamationTests(arg: CString)
    requires |arg| == 40 && forall k | 0 <= k < |arg| :: arg[k] == 0x21
    ensures forall m | 0 <= m < 33 :: LoopTestHolds(Padded(arg), 40, m)
    ensures !LoopTestHolds(Padded(arg), 40, 33)
  {
    var v := Padded(arg);
    forall m | 0 <= m < 33
      ensures LoopTestHolds(v, 40, m)
    {
      if m >= 2 {
        assert v[m - 2] == arg[m - 2];
      }
    }
    assert v[31] == arg[31];
  }

  /** The record the loop leaves for forty '!' bytes reads back as the
      first 33 of them. */
  lemma TruncatedText(arg: CString)
    requires |arg| == 40
    ensures DecodeText(LoopState(Padded(arg), 40, 33)) == arg[..33]
  {
    var rec := LoopState(Padded(arg), 40, 33);
    assert ClampedLength(rec) == 40;
    assert rec[2..42] == arg[..33] + [0] + Zeros(6);
    UpToNulStopsAtTerminator(arg[..33], Zeros(6));
  }

  /** Forty-nine 'a' bytes (0x61 = 97): the test holds up to iteration 50,
      which writes `strBuffer[52]`. */
  lemma EncodeAsWrittenOverruns(arg: CString)
    requires |arg| == 49 && forall k | 0 <= k < |arg| :: arg[k] == 0x61
    ensures EncodeAsWritten(arg) == Err(OutOfBounds(StrBufferArray, RecordSize))
  {
    var v := Padded(arg);
    forall m | 0 <= m <= Capacity
      ensures LoopTestHolds(v, 49, m)
    {
      if m >= 2 {
        assert v[m - 2] == arg[m - 2];
      }
    }
    CopyLoopOutcome(v, 49, 0, Capacity + 1);
    EncodeAsWrittenRuns(arg);
  }
}
