/** `main` of the command-line client: a fixed, ordered chain of argument
    checks, then one session with the controller that connects, performs
    exactly one typed read or write, and disconnects if the connect
    succeeded. The Snap7 client library is not modelled: its calls appear
    as events of a trace, the result of `ConnectTo` is a parameter, and the
    bytes a read delivers come from a `Device` parameter. `sscanf_s` is a
    `Scanner` parameter. */
module Client {
  import opened Wrappers
  import opened Bytes
  import opened ByteOrder
  import opened Codec
  import StringRecord

  // Process exit codes.
  const Success := 0
  const WrongArgumentsCount := -1
  const WrongOperation := -2
  const WrongArgumentsCountForOperation := -3
  const WrongDbNumber := -4
  const WrongStart := -5
  const WrongType := -6
  const WrongStr50Length := -7
  const WrongConsoleRead := -8
  const WrongConnection := -9

  /** The code each argument check returns, in the order of the checks. */
  const ValidationCodes: seq<int> := [WrongArgumentsCount, WrongOperation, WrongArgumentsCountForOperation,
                                      WrongDbNumber, WrongStart, WrongType, WrongStr50Length]

  /** The rack and slot every connection uses. */
  const DefaultRack := 0
  const DefaultSlot := 2

  /** The operation flags, spelled as bytes: "-r" and "-w". */
  const ReadFlag: CString := [0x2D, 0x72]
  const WriteFlag: CString := [0x2D, 0x77]

  /** The type names accepted on the command line. */
  function TypeName(t: VarType): CString
  {
    match t
    case Bool => [0x42, 0x4F, 0x4F, 0x4C]        // "BOOL"
    case Int => [0x49, 0x4E, 0x54]               // "INT"
    case DInt => [0x44, 0x49, 0x4E, 0x54]        // "DINT"
    case Str50 => [0x53, 0x54, 0x52, 0x35, 0x30] // "STR50"
  }

  /** The type an argument names, if any. */
  function ParseType(arg: CString): (r: Option<VarType>)
    ensures r.Some? ==> TypeName(r.value) == arg
    ensures r.None? ==> forall t: VarType :: TypeName(t) != arg
  {
    if arg == TypeName(Bool) then Some(Bool)
    else if arg == TypeName(Int) then Some(Int)
    else if arg == TypeName(DInt) then Some(DInt)
    else if arg == TypeName(Str50) then Some(Str50)
    else None
  }

  /** The `sscanf_s` conversions the client uses: "%d", "%hd" and "%hhu". */
  datatype Conversion = Decimal | ShortDecimal | UnsignedChar

  /** `sscanf_s(arg, conversion, &target) == 1`: the number scanned, or
      `None` when the conversion matched nothing. */
  type Scanner = (Conversion, CString) -> Option<int>

  /** The bytes the controller's data block delivers for a read of `size`
      bytes at (block number, start offset). */
  type Device = (int, int, nat) -> seq<byte>

  /** The value a successful conversion leaves in its target variable: the
      scanned number reduced to the width of the target (`int`, `int16_t`,
      `uint8_t`) by two's-complement truncation. */
  function Store(c: Conversion, x: int): (v: int)
    ensures c == Decimal ==> IsInt32(v) && (IsInt32(x) ==> v == x)
    ensures c == ShortDecimal ==> IsInt16(v) && (IsInt16(x) ==> v == x)
    ensures c == UnsignedChar ==> 0 <= v < 0x100 && (0 <= x < 0x100 ==> v == x)
  {
    match c
    case Decimal => (x + 0x8000_0000) % 0x1_0000_0000 - 0x8000_0000
    case ShortDecimal => (x + 0x8000) % 0x1_0000 - 0x8000
    case UnsignedChar => x % 0x100
  }

  /** The conversion that scans a write value of each numeric type. */
  function ValueConversion(t: VarType): Conversion
    requires t != Str50
  {
    match t
    case Bool => UnsignedChar
    case Int => ShortDecimal
    case DInt => Decimal
  }

  // ---------------------------------------------------------------------
  // Argument validation
  // ---------------------------------------------------------------------

  datatype Operation = ReadOp | WriteOp

  /** A validated command line. */
  datatype Request = Request(address: CString, op: Operation, db: int, start: int,
                             varType: VarType, value: Option<CString>)

  /** Check number `check` (1 to 7) of the chain, on its own. Each check is
      only reached once the earlier ones have passed. */
  predicate CheckPasses(check: nat, argv: seq<CString>, scan: Scanner)
    requires 1 <= check <= 7
  {
    match check
    case 1 => |argv| == 6 || |argv| == 7
    case 2 => |argv| > 2 && (argv[2] == ReadFlag || argv[2] == WriteFlag)
    case 3 => |argv| > 2 && (|argv| == 6 ==> argv[2] == ReadFlag) && (|argv| == 7 ==> argv[2] == WriteFlag)
    case 4 => |argv| > 3 && scan(Decimal, argv[3]).Some?
    case 5 => |argv| > 4 && scan(Decimal, argv[4]).Some?
    case 6 => |argv| > 5 && ParseType(argv[5]).Some?
    case 7 => |argv| == 7 && argv[2] == WriteFlag ==> |argv[6]| <= StringRecord.Capacity
  }

  /** Lines 129-163: the first failing check decides the exit code; when all
      pass, the request is read off the arguments. */
  function Validate(argv: seq<CString>, scan: Scanner): (r: Result<Request, int>)
    ensures r.Err? <==> exists check | 1 <= check <= 7 :: !CheckPasses(check, argv, scan)
    ensures r.Err? ==> exists check | 1 <= check <= 7 ::
      && !CheckPasses(check, argv, scan)
      && r.error == ValidationCodes[check - 1]
      && forall earlier | 1 <= earlier < check :: CheckPasses(earlier, argv, scan)
    ensures r.Ok? ==>
      && |argv| in {6, 7}
      && r.value.address == argv[1]
      && (r.value.op == ReadOp <==> argv[2] == ReadFlag)
      && (r.value.op == WriteOp <==> |argv| == 7)
      && scan(Decimal, argv[3]).Some? && scan(Decimal, argv[4]).Some?
      && r.value.db == Store(Decimal, scan(Decimal, argv[3]).value)
      && r.value.start == Store(Decimal, scan(Decimal, argv[4]).value)
      && TypeName(r.value.varType) == argv[5]
      && r.value.value == (if |argv| == 7 then Some(argv[6]) else None)
      && (r.value.value.Some? ==> |r.value.value.value| <= StringRecord.Capacity)
  {
    if |argv| != 6 && |argv| != 7 then
      assert !CheckPasses(1, argv, scan);
      Err(WrongArgumentsCount)
    else if argv[2] != ReadFlag && argv[2] != WriteFlag then
      assert !CheckPasses(2, argv, scan);
      Err(WrongOperation)
    else if |argv| == 6 && argv[2] != ReadFlag then
      assert !CheckPasses(3, argv, scan);
      Err(WrongArgumentsCountForOperation)
    else if |argv| == 7 && argv[2] != WriteFlag then
      assert !CheckPasses(3, argv, scan);
      Err(WrongArgumentsCountForOperation)
    else if scan(Decimal, argv[3]).None? then
      assert !CheckPasses(4, argv, scan);
      Err(WrongDbNumber)
    else if scan(Decimal, argv[4]).None? then
      assert !CheckPasses(5, argv, scan);
      Err(WrongStart)
    else if ParseType(argv[5]).None? then
      assert !CheckPasses(6, argv, scan);
      Err(WrongType)
    else if |argv| == 7 && argv[2] == WriteFlag && |argv[6]| > StringRecord.Capacity then
      assert !CheckPasses(7, argv, scan);
      Err(WrongStr50Length)
    else
      assert forall check | 1 <= check <= 7 :: CheckPasses(check, argv, scan);
      Ok(Request(argv[1], if argv[2] == ReadFlag then ReadOp else WriteOp,
                 Store(Decimal, scan(Decimal, argv[3]).value),
                 Store(Decimal, scan(Decimal, argv[4]).value),
                 ParseType(argv[5]).value,
                 if |argv| == 7 then Some(argv[6]) else None))
  }

  /** A request `Validate` can produce. */
  predicate WellFormed(req: Request)
  {
    && (req.op == WriteOp <==> req.value.Some?)
    && (req.value.Some? ==> |req.value.value| <= StringRecord.Capacity)
  }

  // ---------------------------------------------------------------------
  // The session
  // ---------------------------------------------------------------------

  /** What the run asks of the Snap7 client, and the usage text it prints. */
  datatype Event =
    | Usage
    | Connect(address: CString, rack: int, slot: int)
    | Read(db: int, start: int, size: nat)
    | Write(db: int, start: int, data: seq<byte>)
    | Disconnect
  {
    predicate IsTransfer() { Read? || Write? }
  }

  /** The value a run reports: printed to standard output (and echoed as
      "READ:") after a read, or echoed as "WROTE:" after a write. */
  datatype Report = Printed(value: Value) | Wrote(value: Value)

  datatype Outcome = Outcome(code: int, trace: seq<Event>, report: Option<Report>)
  {
    /** Whether the run tried to connect. */
    predicate Connects() { exists i | 0 <= i < |trace| :: trace[i].Connect? }
  }

  /** The buffer a read fills: the bytes delivered, over a zero-initialised
      global of `size` bytes. */
  function Fill(delivered: seq<byte>, size: nat): (buf: seq<byte>)
    ensures |buf| == size
    ensures forall i | 0 <= i < size :: buf[i] == (if i < |delivered| then delivered[i] else 0)
  {
    if |delivered| >= size then delivered[..size] else delivered + Zeros(size - |delivered|)
  }

  /** Lines 207-244: the bytes a write sends and the value it echoes, or
      `WrongConsoleRead` when the value does not scan. A numeric value is
      scanned into its variable, swapped, sent as it lies in memory, and
      swapped back before it is echoed. */
  function WritePayload(t: VarType, arg: CString, scan: Scanner): (r: Result<(seq<byte>, Value), int>)
    requires |arg| <= StringRecord.Capacity
    ensures r.Err? <==> t != Str50 && scan(ValueConversion(t), arg).None?
    ensures r.Err? ==> r.error == WrongConsoleRead
    ensures r.Ok? ==> r.value.1.Valid() && r.value.1.TypeOf() == t && r.value.0 == Encode(r.value.1)
    ensures r.Ok? && t == Bool ==> r.value.1 == BoolValue(ByteOf(Store(UnsignedChar, scan(UnsignedChar, arg).value)))
    ensures r.Ok? && t == Int ==> r.value.1 == IntValue(Store(ShortDecimal, scan(ShortDecimal, arg).value))
    ensures r.Ok? && t == DInt ==> r.value.1 == DIntValue(Store(Decimal, scan(Decimal, arg).value))
    ensures r.Ok? && t == Str50 ==> r.value.1 == StrValue(arg)
  {
    match t
    case Bool =>
      (match scan(UnsignedChar, arg)
       case None => Err(WrongConsoleRead)
       case Some(x) =>
         var b := ByteOf(Store(UnsignedChar, x));
         Ok(([b], BoolValue(b))))
    case Int =>
      (match scan(ShortDecimal, arg)
       case None => Err(WrongConsoleRead)
       case Some(x) =>
         var v := Store(ShortDecimal, x);
         var held := Swap16(Int16Bits(v));
         Swap16Involution(Int16Bits(v));
         Int16BitsValue(v);
         Ok((HostStore16(held), IntValue(Int16Value(Swap16(held))))))
    case DInt =>
      (match scan(Decimal, arg)
       case None => Err(WrongConsoleRead)
       case Some(x) =>
         var v := Store(Decimal, x);
         var held := Swap32(Int32Bits(v));
         Swap32Involution(Int32Bits(v));
         Int32BitsValue(v);
         Ok((HostStore32(held), DIntValue(Int32Value(Swap32(held))))))
    case Str50 =>
      Ok((StringRecord.Encode(arg), StrValue(arg)))
  }

  /** The event list and report of the one transfer a connected session performs. */
  function Transfer(req: Request, scan: Scanner, device: Device): (r: Outcome)
    requires WellFormed(req)
    ensures r.code == Success || r.code == WrongConsoleRead
    ensures r.code == WrongConsoleRead <==> req.op == WriteOp && WritePayload(req.varType, req.value.value, scan).Err?
    ensures r.code == WrongConsoleRead ==> r.trace == [Usage] && r.report.None?
    ensures r.code == Success ==> |r.trace| == 1 && r.trace[0].IsTransfer() && r.report.Some?
    ensures r.code == Success && req.op == ReadOp ==>
      var size := WireSize(req.varType);
      && r.trace == [Read(req.db, req.start, size)]
      && r.report == Some(Printed(Decode(req.varType, Fill(device(req.db, req.start, size), size))))
    ensures r.code == Success && req.op == WriteOp ==>
      var p := WritePayload(req.varType, req.value.value, scan);
      && p.Ok?
      && r.trace == [Write(req.db, req.start, p.value.0)]
      && r.report == Some(Wrote(p.value.1))
  {
    match req.op
    case ReadOp =>
      var size := WireSize(req.varType);
      var raw := Fill(device(req.db, req.start, size), size);
      Outcome(Success, [Read(req.db, req.start, size)], Some(Printed(Decode(req.varType, raw))))
    case WriteOp =>
      match WritePayload(req.varType, req.value.value, scan)
      case Err(code) => Outcome(code, [Usage], None)
      case Ok((data, echoed)) => Outcome(Success, [Write(req.db, req.start, data)], Some(Wrote(echoed)))
  }

  /** Lines 165-252: connect; on success transfer once and disconnect; on
      failure report the connection error and stop. */
  function Session(req: Request, scan: Scanner, connectResult: int, device: Device): (o: Outcome)
    requires WellFormed(req)
    ensures |o.trace| > 0 && o.trace[0] == Connect(req.address, DefaultRack, DefaultSlot)
    ensures forall i | 0 < i < |o.trace| :: !o.trace[i].Connect?
    ensures Disconnect in o.trace <==> connectResult == 0
    ensures connectResult != 0 ==> o.code == WrongConnection && |o.trace| == 1 && o.report.None?
    ensures connectResult == 0 ==> o.code in {Success, WrongConsoleRead} && o.trace[|o.trace| - 1] == Disconnect
  {
    var connect := Connect(req.address, DefaultRack, DefaultSlot);
    if connectResult != 0 then
      Outcome(WrongConnection, [connect], None)
    else
      var t := Transfer(req, scan, device);
      Outcome(t.code, [connect] + t.trace + [Disconnect], t.report)
  }

  /** The whole run of `main`. */
  function Run(argv: seq<CString>, scan: Scanner, connectResult: int, device: Device): (o: Outcome)
    ensures Validate(argv, scan).Err? ==>
      o.code == Validate(argv, scan).error && o.trace == [Usage] && o.report.None?
    ensures o.Connects() <==> Validate(argv, scan).Ok?
    ensures Validate(argv, scan).Ok? ==> o.trace[0] == Connect(argv[1], DefaultRack, DefaultSlot)
    ensures Disconnect in o.trace <==> Validate(argv, scan).Ok? && connectResult == 0
    ensures o.code == WrongConnection <==> Validate(argv, scan).Ok? && connectResult != 0
    ensures o.code == WrongConnection ==> |o.trace| == 1
    ensures o.code == WrongConsoleRead ==> |o.trace| == 3 && o.trace[1] == Usage && o.trace[2] == Disconnect
    ensures o.code == Success ==>
      |o.trace| == 3 && o.trace[1].IsTransfer() && o.trace[2] == Disconnect
    ensures o.code == Success || o.code == WrongConsoleRead || o.code == WrongConnection || o.code in ValidationCodes
  {
    match Validate(argv, scan)
    case Err(code) => Outcome(code, [Usage], None)
    case Ok(req) => Session(req, scan, connectResult, device)
  }

  // ---------------------------------------------------------------------
  // Properties of a run
  // ---------------------------------------------------------------------

  /** A run opens at most one connection and performs at most one transfer;
      a disconnect, when there is one, is the last event. */
  lemma OneConnectionOneTransfer(argv: seq<CString>, scan: Scanner, connectResult: int, device: Device)
    ensures var o := Run(argv, scan, connectResult, device);
      && (forall i, j | 0 <= i < j < |o.trace| :: !(o.trace[i].Connect? && o.trace[j].Connect?))
      && (forall i, j | 0 <= i < j < |o.trace| :: !(o.trace[i].IsTransfer() && o.trace[j].IsTransfer()))
      && (forall i | 0 <= i < |o.trace| - 1 :: o.trace[i] != Disconnect)
  {
  }

  /** Every transfer moves exactly the wire size of the requested type: 1, 2,
      4 or 52 bytes, on the read and on the write path. */
  lemma TransferSizeMatchesType(argv: seq<CString>, scan: Scanner, connectResult: int, device: Device)
    requires Validate(argv, scan).Ok?
    ensures var o := Run(argv, scan, connectResult, device);
      var t := Validate(argv, scan).value.varType;
      forall e | e in o.trace ::
        && (e.Read? ==> e.size == WireSize(t))
        && (e.Write? ==> |e.data| == WireSize(t))
  {
    var req := Validate(argv, scan).value;
    if connectResult == 0 {
      var t := Transfer(req, scan, device);
      assert Run(argv, scan, connectResult, device).trace == [Connect(req.address, DefaultRack, DefaultSlot)] + t.trace + [Disconnect];
    }
  }

  /** A successful read prints the value the controller's bytes decode to;
      a successful write sends the encoding of the value it echoes, and that
      value is argv[6] itself (STR50) or what the scanner made of argv[6]
      (the contract of `WritePayload` says which number). */
  lemma SuccessfulTransfer(argv: seq<CString>, scan: Scanner, device: Device)
    requires Validate(argv, scan).Ok?
    requires Run(argv, scan, 0, device).code == Success
    ensures var o := Run(argv, scan, 0, device);
      var req := Validate(argv, scan).value;
      var size := WireSize(req.varType);
      && (req.op == ReadOp ==>
            && o.trace[1] == Read(req.db, req.start, size)
            && o.report == Some(Printed(Decode(req.varType, Fill(device(req.db, req.start, size), size)))))
      && (req.op == WriteOp ==>
            var p := WritePayload(req.varType, req.value.value, scan);
            && p.Ok?
            && o.trace[1] == Write(req.db, req.start, p.value.0)
            && o.report == Some(Wrote(p.value.1))
            && p.value.0 == Encode(p.value.1)
            && (req.varType == Str50 ==> p.value.1 == StrValue(argv[6]))
            && (req.varType != Str50 ==>
                  scan(ValueConversion(req.varType), argv[6]).Some?))
  {
    var req := Validate(argv, scan).value;
    var t := Transfer(req, scan, device);
    assert Run(argv, scan, 0, device).trace == [Connect(req.address, DefaultRack, DefaultSlot)] + t.trace + [Disconnect];
  }
}
