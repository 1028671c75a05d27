/** Whole runs of the client on concrete command lines. The program name,
    the address and the numeric arguments are left symbolic; what
    `sscanf_s` makes of the numeric arguments is stated as a requirement on
    the scanner. */
module Scenarios {
  import opened Wrappers
  import opened Bytes
  import opened Codec
  import opened Client
  import StringRecord

  /** `<address> -r 1000 0 STR50` against a block whose record holds "Fred":
      one 52-byte read, "Fred" printed, exit code 0. */
  lemma ReadFred(argv: seq<CString>, scan: Scanner, device: Device)
    requires |argv| == 6 && argv[2] == ReadFlag && argv[5] == TypeName(Str50)
    requires scan(Decimal, argv[3]) == Some(1000) && scan(Decimal, argv[4]) == Some(0)
    requires device(1000, 0, 52) == [50, 4, 0x46, 0x72, 0x65, 0x64] + Zeros(46)
    ensures Run(argv, scan, 0, device) ==
      Outcome(Success, [Connect(argv[1], 0, 2), Read(1000, 0, 52), Disconnect], Some(Printed(StrValue([0x46, 0x72, 0x65, 0x64]))))
  {
    assert Validate(argv, scan) == Ok(Request(argv[1], ReadOp, 1000, 0, Str50, None));
    FredRecord(device(1000, 0, 52));
  }

  /** The record holding "Fred" decodes to "Fred". */
  lemma FredRecord(rec: seq<byte>)
    requires rec == [50, 4, 0x46, 0x72, 0x65, 0x64] + Zeros(46)
    ensures Fill(rec, 52) == rec
    ensures Decode(Str50, rec) == StrValue([0x46, 0x72, 0x65, 0x64])
  {
    assert rec[2..2 + StringRecord.ClampedLength(rec)] == [0x46, 0x72, 0x65, 0x64];
    UpToNulOfCString([0x46, 0x72, 0x65, 0x64]);
  }

  /** `<address> -w 1001 0 INT 300`: one 2-byte write of 0x01, 0x2C, the
      value 300 echoed, exit code 0. */
  lemma WriteInt300(argv: seq<CString>, scan: Scanner, device: Device)
    requires |argv| == 7 && argv[2] == WriteFlag && argv[5] == TypeName(Int) && |argv[6]| <= 50
    requires scan(Decimal, argv[3]) == Some(1001) && scan(Decimal, argv[4]) == Some(0)
    requires scan(ShortDecimal, argv[6]) == Some(300)
    ensures Run(argv, scan, 0, device) ==
      Outcome(Success, [Connect(argv[1], 0, 2), Write(1001, 0, [0x01, 0x2C]), Disconnect], Some(Wrote(IntValue(300))))
  {
    EncodeIntExample(300);
  }

  /** Only the address and the flag: usage and exit code -1, no connection. */
  lemma TooFewArguments(argv: seq<CString>, scan: Scanner, connectResult: int, device: Device)
    requires |argv| == 3
    ensures Run(argv, scan, connectResult, device) == Outcome(WrongArgumentsCount, [Usage], None)
  {
  }

  /** A connect that fails: exit code -9, no transfer, no disconnect. */
  lemma UnreachableController(argv: seq<CString>, scan: Scanner, connectResult: int, device: Device)
    requires Validate(argv, scan).Ok? && connectResult != 0
    ensures Run(argv, scan, connectResult, device) == Outcome(WrongConnection, [Connect(argv[1], 0, 2)], None)
  {
  }

  /** A write value that does not scan, after a successful connect: usage,
      exit code -8, and the connection is still closed. */
  lemma UnscannableWriteValue(argv: seq<CString>, scan: Scanner, device: Device)
    requires |argv| == 7 && argv[2] == WriteFlag && argv[5] == TypeName(DInt) && |argv[6]| <= 50
    requires scan(Decimal, argv[3]).Some? && scan(Decimal, argv[4]).Some?
    requires scan(Decimal, argv[6]).None?
    ensures Run(argv, scan, 0, device) == Outcome(WrongConsoleRead, [Connect(argv[1], 0, 2), Usage, Disconnect], None)
  {
  }

  /** A 51-byte write value is refused with -7 whatever the type. */
  lemma OverlongWriteValue(argv: seq<CString>, scan: Scanner, connectResult: int, device: Device)
    requires |argv| == 7 && argv[2] == WriteFlag && ParseType(argv[5]).Some? && |argv[6]| == 51
    requires scan(Decimal, argv[3]).Some? && scan(Decimal, argv[4]).Some?
    ensures Run(argv, scan, connectResult, device) == Outcome(WrongStr50Length, [Usage], None)
  {
  }

  /** A BOOL read prints the raw byte: 0xFF is printed as 255, not as 1. */
  lemma ReadBoolPrintsRawByte(argv: seq<CString>, scan: Scanner, device: Device)
    requires |argv| == 6 && argv[2] == ReadFlag && argv[5] == TypeName(Bool)
    requires scan(Decimal, argv[3]).Some? && scan(Decimal, argv[4]).Some?
    requires device(Store(Decimal, scan(Decimal, argv[3]).value), Store(Decimal, scan(Decimal, argv[4]).value), 1) == [0xFF]
    ensures Run(argv, scan, 0, device).report == Some(Printed(BoolValue(0xFF)))
  {
  }
}
