# si-snap7-client in Dafny

A model of `si-snap7-client`, the command-line client that reads one typed
variable from a data block of a Siemens S7 controller, or writes one to it,
through the Snap7 client library. A run is

    si-snap7-client <ipaddress> -r|-w <dbnumber> <start> <type> [<value>]

with `<type>` one of BOOL, INT, DINT, STR50. The model covers:

- the two `swapBinary` overloads, which turn a 16-bit or 32-bit host word
  into the controller's byte order (`ByteOrder`);
- the integer layouts of INT and DINT on the wire, and the BOOL byte
  (`Codec`);
- the STR50 record, a 50-byte string with a capacity header and a length
  header. The record is modelled both as the read and write code builds it
  and as that code evidently intends (`StringRecord`);
- `main`. This covers the ordered chain of seven argument checks with exit
  codes −1 to −7, and the connect. It also covers the single read or write
  with exit code −8 for a write value that does not scan, the disconnect
  after a successful connect, and exit code −9 when the connect fails
  (`Client`);
- concrete runs (`Scenarios`).

The calls into the Snap7 library become events of a trace: `Connect`,
`Read`, `Write` and `Disconnect`. A `Usage` event stands for the usage text
on standard error. Three things the program does not compute become
parameters of a run:

- the result of `ConnectTo`;
- the bytes a controller delivers for a read (a `Device`);
- what `sscanf_s` makes of an argument (a `Scanner`).

The host is taken to be little-endian.

Where the code and its documentation differ, the model follows the code,
except for the STR50 record: a run sends and prints the record as the code
evidently intends, and the code as written is modelled beside it (see
"## Left out" and "## Findings"). Otherwise:

- A BOOL read prints the raw byte (0xFF prints as 255). It is not
  normalised to 0/1 or true/false.
- The return codes of `DBRead` and `DBWrite` are ignored. A run that
  connected exits with 0 or −8, never with a transfer error.
- An unknown type name is refused by the argument checks (−6). No encoder
  error exists for it.
- Disconnect happens only after a successful connect. It is not done on
  every exit path.

## Model

| member | source | states |
|---|---|---|
| ByteOrder.Swap16 | si-snap7-client.cpp:93-95 | the 16-bit swap exchanges the two bytes: the new high byte is the old low byte and vice versa |
| ByteOrder.Swap32 | si-snap7-client.cpp:96-99 | the 32-bit swap reverses the four bytes: byte k of the result is byte 3−k of the input |
| ByteOrder.Swap16Involution | si-snap7-client.cpp:217-219 | swapping a 16-bit word twice gives the word back, so the value echoed after a write is the value scanned |
| ByteOrder.Swap32Involution | si-snap7-client.cpp:227-229 | swapping a 32-bit word twice gives the word back |
| ByteOrder.Swap16Example | si-snap7-client.cpp:93-95 | 0x012C swaps to 0x2C01 |
| ByteOrder.HostStore16 | si-snap7-client.cpp:218 | the two bytes `DBWrite` sends from a 16-bit variable are the memory the variable is loaded back from |
| ByteOrder.HostLoad16 | si-snap7-client.cpp:184 | the variable `DBRead` fills from two bytes has the first byte as low byte and the second as high byte |
| ByteOrder.HostStore32 | si-snap7-client.cpp:228 | the four bytes sent from a 32-bit variable are the memory the variable is loaded back from |
| ByteOrder.HostLoad32 | si-snap7-client.cpp:189 | the variable filled from four bytes has byte k of the input as byte k |
| ByteOrder.HostLayout16RoundTrip | si-snap7-client.cpp:184 | loading and storing a 16-bit variable are inverse to each other |
| ByteOrder.HostLayout32RoundTrip | si-snap7-client.cpp:189 | loading and storing a 32-bit variable are inverse to each other |
| Bytes.UpToNul | si-snap7-client.cpp:203 | what `%s` and `strlen` see in a byte array: a NUL-free prefix that stops at the first NUL or at the end |
| StringRecord.ClampedLength | si-snap7-client.cpp:195 | the copy length is `min(strBuffer[1], 50)`: it is at most 50, at most the header, and equal to one of the two |
| StringRecord.ReadStrValue | si-snap7-client.cpp:194-202 | the read loop copies exactly the clamped number of content bytes and writes a terminator right after them only when fewer than 50 were copied; it leaves the rest of `strValue` as it was |
| StringRecord.PrintedStrValue | si-snap7-client.cpp:203 | printing `strValue` shows the bytes before its first NUL; it faults at index 50 exactly when the array holds no NUL |
| StringRecord.PrintedAgreesBelowCapacity | si-snap7-client.cpp:195-203 | when fewer than 50 bytes were copied, what the read prints is the decoded text of the record |
| StringRecord.PrintedOverrunsWhenFull | si-snap7-client.cpp:197-203 | a header of 50 or more with 50 non-NUL content bytes leaves `strValue` unterminated, and printing it runs past the array, although the record holds a 50-byte text |
| StringRecord.DecodeText | si-snap7-client.cpp:194-202 | the text a read delivers is a NUL-free prefix of the clamped content; it is cut short only at a NUL byte of the record |
| StringRecord.DecodeClampsOversizedHeader | si-snap7-client.cpp:195 | a length header of 200 over 50 non-NUL bytes decodes to exactly those 50 bytes |
| StringRecord.Encode | si-snap7-client.cpp:238-243 | the record written for a string has capacity header 50, the string's length, the string, and zero padding |
| StringRecord.RoundTrip | si-snap7-client.cpp:238-241 | decoding the record written for any string of at most 50 bytes gives that string |
| StringRecord.CanonicalRecordIsEncoding | si-snap7-client.cpp:238-243 | every record with capacity header 50, a length of at most 50, NUL-free content and zero padding is the encoding of its decoded text |
| StringRecord.StrValueForWrite | si-snap7-client.cpp:236-237 | `strncpy` plus the explicit terminator gives the argument padded with NULs; for a 50-byte argument the terminator goes to index 50, past the array |
| StringRecord.CopyLoop | si-snap7-client.cpp:240-242 | the copy loop never changes the two header bytes or the bytes before its start; if its test still holds at index 50 it writes `strBuffer[52]`, past the buffer |
| StringRecord.EncodeAsWritten | si-snap7-client.cpp:236-243 | the write path as written faults on every 50-byte argument, and otherwise keeps the headers 50 and `strlen` |
| StringRecord.CopyLoopOutcome | si-snap7-client.cpp:240-242 | the loop copies `strValue` up to the first index whose test fails, where the test at index i ≥ 2 compares i with the byte copied two iterations earlier; it overruns when no test fails up to 50 |
| StringRecord.EncodeAsWrittenAgrees | si-snap7-client.cpp:236-243 | for strings of at most 48 bytes whose byte k exceeds k+2, the write path as written produces the intended record |
| StringRecord.EncodeAsWrittenTruncates | si-snap7-client.cpp:240 | forty '!' bytes are written as a record whose text reads back as 33 bytes |
| StringRecord.EncodeAsWrittenOverruns | si-snap7-client.cpp:240-241 | forty-nine 'a' bytes make the loop write `strBuffer[52]` |
| Codec.Int16Bits | si-snap7-client.cpp:73 | an `int16_t` holding v has the unsigned contents v mod 2^16 |
| Codec.Int16Value | si-snap7-client.cpp:73 | the contents of an `int16_t` read as a value in range, congruent to the contents mod 2^16 |
| Codec.Int32Bits | si-snap7-client.cpp:74 | an `int32_t` holding v has the unsigned contents v mod 2^32 |
| Codec.Int32Value | si-snap7-client.cpp:74 | the contents of an `int32_t` read as a value in range, congruent to the contents mod 2^32 |
| Codec.Int16BitsValue | si-snap7-client.cpp:216-220 | storing a 16-bit value and reading the variable back gives the value |
| Codec.Int32BitsValue | si-snap7-client.cpp:226-230 | storing a 32-bit value and reading the variable back gives the value |
| Codec.EncodeInt | si-snap7-client.cpp:216-218 | an INT goes on the wire as two bytes, most significant first, carrying its two's-complement value |
| Codec.DecodeInt | si-snap7-client.cpp:184-187 | two bytes read as an INT give the in-range value whose two's complement they spell, most significant first |
| Codec.EncodeDInt | si-snap7-client.cpp:226-228 | a DINT goes on the wire as four bytes, most significant first, carrying its two's-complement value |
| Codec.DecodeDInt | si-snap7-client.cpp:189-192 | four bytes read as a DINT give the in-range value whose two's complement they spell, most significant first |
| Codec.IntRoundTrip | si-snap7-client.cpp:216-218 | reading back the bytes written for an INT gives the INT |
| Codec.IntWireRoundTrip | si-snap7-client.cpp:184-185 | writing back the INT read from two bytes sends the same two bytes |
| Codec.DIntRoundTrip | si-snap7-client.cpp:226-228 | reading back the bytes written for a DINT gives the DINT |
| Codec.DIntWireRoundTrip | si-snap7-client.cpp:189-190 | writing back the DINT read from four bytes sends the same four bytes |
| Codec.EncodeIntDigits | si-snap7-client.cpp:216-218 | the INT wire bytes are the high and low base-256 digits of the value mod 2^16 |
| Codec.EncodeIntExample | si-snap7-client.cpp:216-218 | 300 is written as the bytes 0x01, 0x2C |
| Codec.Encode | si-snap7-client.cpp:207-243 | the bytes written for a value number 1, 2, 4 or 52, according to its type |
| Codec.Decode | si-snap7-client.cpp:179-202 | the value read for a type has that type and fits its C variable |
| Codec.RoundTrip | si-snap7-client.cpp:179-243 | for every type, reading back the bytes written for a value gives the value |
| Client.ParseType | si-snap7-client.cpp:153-159 | a type argument is accepted exactly when it spells BOOL, INT, DINT or STR50, and the type found is the one it spells |
| Client.Store | si-snap7-client.cpp:145 | a scanned number is kept to the width of its target variable and left unchanged when it fits |
| Client.Validate | si-snap7-client.cpp:129-163 | the command line is refused exactly when one of the seven checks fails; the exit code is that of the first failing check, all earlier checks pass, and an accepted request carries the address, operation, scanned block and start, type and value of the arguments |
| Client.Fill | si-snap7-client.cpp:180 | the buffer a read fills holds exactly the requested number of bytes: those delivered, then the zeros of the global it starts as |
| Client.WritePayload | si-snap7-client.cpp:207-244 | a write fails with −8 exactly when a numeric value does not scan; otherwise it sends the encoding of the value it echoes, and that value is the scanned number kept to its width (or the string) |
| Client.Transfer | si-snap7-client.cpp:178-245 | a connected run makes exactly one transfer: a read of the type's size whose printed value is the decoding of the bytes delivered, or a write of exactly the bytes `WritePayload` makes of the command-line value, echoing the value it scanned, or only the usage text with −8 |
| Client.Session | si-snap7-client.cpp:175-251 | the connect goes to the address with rack 0 and slot 2 and is the only connect; there is a disconnect exactly when it returned 0, as the last event; a failed connect gives −9 and nothing else |
| Client.Run | si-snap7-client.cpp:128-253 | a refused command line prints usage and returns its code without connecting; a connect happens exactly when the arguments pass; −9 comes exactly with a failed connect and no transfer or disconnect; −8 and 0 come with connect, one event, disconnect |
| Client.OneConnectionOneTransfer | si-snap7-client.cpp:176-247 | no run connects twice or transfers twice, and nothing follows a disconnect |
| Client.TransferSizeMatchesType | si-snap7-client.cpp:178-243 | every read and write moves the wire size of the requested type: 1, 2, 4 or 52 bytes |
| Client.SuccessfulTransfer | si-snap7-client.cpp:178-244 | a successful read prints the decoding of the controller's bytes; a successful write sends the encoding of the value it echoes, and that value is argv[6] for STR50 or the number the scanner made of argv[6] otherwise |
| Scenarios.ReadFred | si-snap7-client.cpp:193-204 | reading STR50 from a record holding "Fred" makes one 52-byte read, prints "Fred" and exits with 0 |
| Scenarios.WriteInt300 | si-snap7-client.cpp:215-220 | writing INT 300 sends 0x01, 0x2C and echoes 300 |
| Scenarios.TooFewArguments | si-snap7-client.cpp:129-132 | three arguments give usage and −1 without a connect |
| Scenarios.UnreachableController | si-snap7-client.cpp:248-251 | a failed connect after valid arguments gives −9 with no transfer and no disconnect |
| Scenarios.UnscannableWriteValue | si-snap7-client.cpp:225-234 | a DINT value that does not scan gives usage and −8, and the connection is still closed |
| Scenarios.OverlongWriteValue | si-snap7-client.cpp:160-163 | a 51-byte write value is refused with −7 before any connect |
| Scenarios.ReadBoolPrintsRawByte | si-snap7-client.cpp:179-182 | a BOOL byte 0xFF is printed as 255 |

## Left out

- The Snap7 client object: `ConnectTo`, `DBRead`, `DBWrite` and `Disconnect` are trace events. The connect result and the bytes read are parameters. The return codes of `DBRead` and `DBWrite` are not modelled because the program ignores them.
- `SetAsCallback`, `cliCompletion` and `sysSleep`: the completion callback is never relied on and the sleep is never called by `main`.
- The text of `usage`, `printError` and the "READ:"/"WROTE:" echoes: usage is one `Usage` event. The connection error message is not an event. The echo is the reported value.
- Client.Store: `sscanf_s` is a `Scanner` parameter, and a number too large for its target is taken to wrap by two's complement. C leaves that overflow undefined.
- The process-wide globals (`boolValue`, `intValue`, `dintValue`, `strValue`, `strBuffer`, `address`) are local state of one run, zero-initialised as in C. `rack` and `slot` are the constants 0 and 2.
- The `TS7Client` allocated with `new` and never freed: a leak at process exit with no effect on a run.
- Windows-only code under `OS_WINDOWS` and the choice of port 102 or 103, which is built into the library.
- Host byte order: the host is taken to be little-endian.
- The run itself uses the corrected STR50 encoding and decoding, `StringRecord.Encode` and `StringRecord.DecodeText`. The code as written is modelled alongside, in `StringRecord.EncodeAsWritten` and `StringRecord.PrintedStrValue`, and compared with the corrected versions under Findings.

## Findings

| source | as written | input that shows it | evidently intended | confidence | as-written member | corrected member |
|---|---|---|---|---|---|---|
| si-snap7-client.cpp:240 | the copy loop tests `i < strBuffer[i]`, comparing the index with a byte of the buffer being filled | the 40-byte value `!!!…!` (0x21 = 33): the loop stops at index 33, and the record reads back as 33 bytes | test `i < strBuffer[1]`, the length just stored | high, not executed | StringRecord.EncodeAsWrittenTruncates | StringRecord.RoundTrip |
| si-snap7-client.cpp:240-241 | the same test lets the loop run to index 50 | the 49-byte value `aaa…a` (0x61 = 97): the iteration at index 50 writes `strBuffer[52]`, one past the buffer | stop after `strBuffer[1]` bytes | high, not executed | StringRecord.EncodeAsWrittenOverruns | StringRecord.Encode |
| si-snap7-client.cpp:237 | `strValue[strlen(argv[6])] = '\0'` on a 50-byte array | any 50-byte value, which the length check at line 160 admits: the terminator is written at index 50, and `strlen(strValue)` at line 239 then reads past the array | terminate only below the capacity, as the read path does at line 200, and take the length from the argument | high, not executed | StringRecord.StrValueForWrite | StringRecord.Encode |
| si-snap7-client.cpp:200-203 | `strValue` is printed with `%s` although it has no terminator when 50 bytes were copied | a record with length header 50 (or more) and 50 non-NUL content bytes: `printf` reads past the 50-byte array | print exactly the copied bytes | medium, not executed | StringRecord.PrintedOverrunsWhenFull | StringRecord.DecodeClampsOversizedHeader |
