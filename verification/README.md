# Controller firmware: codec, command path, measurement, flash and motor loop

This project models the logic of a motor-controller firmware and proves properties of it in Dafny 4.11.
`dafny verify dfyconfig.toml` checks everything.

| module | what it models |
|---|---|
| `Bytes`, `Words` | big-endian numbers in bytes; the shift-and-mask stores and loads of a little-endian machine |
| `Format`, `Normal` | the MessagePack formats: reading one item, writing one item, choosing the shortest form |
| `Spelling` | the table of formats as a relation between bytes and items, independent of the routines |
| `Packer` | the packing context: a cursor in a bounded buffer and an error code that sticks |
| `Unpacker`, `Stream` | the unpacking context with its item record, and repeated unpacking of arbitrary bytes |
| `Tree`, `Flat` | nested values, their pre-order encoding, and rebuilding them |
| `Skip` | the flat loop that steps over nested values with one 32-bit counter |
| `Command`, `Comms` | the command interpreter, the reassembly of MQTT chunks in front of it, and the payloads sent back |
| `FreqResponse` | the frequency-response measurement shared by a thread and an interrupt |
| `M25Q` | the serial flash driver against an abstract device |
| `Tach`, `Compensator` | hall-sensor unwrapping; the limited second-order filter and the motor interrupt |

## The results in brief

**Codec.** Every nested value that fits is packed, and unpacking call by call gives back its items in order, the same
value, and then the end of the input. Reading one item is exactly the table of formats, for every spelling of every item
and for every place where an item can be cut off (`Spelling.ParseIff`, `Spelling.FailIff`); writing one is choosing its one
shortest spelling among the formats in use (`Spelling.WritesShortest`). What is written is the shortest byte string that
reads as the value, and any other spelling of the value decodes to it too (`Flat.BuildIff`). Unpacking
arbitrary bytes ends with one of three codes, each characterised exactly. Any sequence of packing calls leaves the
encodings of the calls before the first failing one.

**Skipping.** The flat counter agrees with structural recursion. On fewer than 2^31 bytes it lands exactly behind the
last of `k` complete values. It is not right on all inputs: a 32-bit count or length can wrap, and then an incomplete
value is reported as skipped (`Skip.SkipCanWrapMap`, `Skip.SkipCanWrapExt`). An OK is truthful exactly when nothing wraps on the way
(`Skip.SkipOkIffNoWrap`), and `Skip.SkimUnfolds` says what the loop does on any bytes, wrapped or not.

**Commands.** Settings sent as one map, in any chunks, to a receiver in any state, leave the motor with the last value
of each. Any bytes at all consist of complete items and a remainder, and the items alone decide what the message does
(`Command.InterpretAnything`); of any chunks after any announcement exactly those that fit count (`Comms.AnyChunks`).
The interpreter compares a key over the length left in the item record, so keys that merely begin a setting's
name take effect too: the message `{"e": true}` enables the motor (`Comms.KeyETakesEffect`). A key acts as its own setting
only exactly when it neither is a mere beginning of a name nor begins with a name and a zero byte (`Comms.ActsAsNamedIff`).
The interpreter walks the flat items two by two, so the items inside a nested value are read as keys and values as well
(`Comms.InterpretMap`, with an example in `Comms.NestedValueTakesEffect`). A map is nevertheless read pair by pair, whatever
the motor's settings, exactly when the items walked have the same effect as the map's own entries (`Comms.PairByPairIff`);
that is the case when nothing is nested in any entry but the last (`Comms.InterpretFlatMap`).

**Measurement.** In every interleaving each report is the four correlations over exactly the samples taken since its own
configuration. A response of given amplitudes in phase and in quadrature is reported as just those, where sine and cosine
are orthogonal over the samples (`FreqResponse.RecoversResponse`). The frequencies go through the geometric sweep over and
over (`FreqResponse.SweepIsGeometric`). From the first configuration on the frequency is within the sweep but for the moment between scaling and
clamping it, and the phase within one turn if the sweep does not exceed the sampling frequency.

**Flash.** A successful programming is old AND data on the range and nothing else, with one write for each page touched.
An erase in progress is not disturbed by further starts (`M25Q.EraseUndisturbed`). A failed programming leaves the
driver in the programming state, and a failed erase leaves the bus held; the contracts state both. The erase command
always takes a 64 kB block. With sub-sectors configured, erasing one also erases a neighbour (`M25Q.NeighbourLost`): the
memory ends up as if only the sector was erased, whatever it held, exactly when sub-sectors are not configured or the
sub-sector is the only one in the last block (`M25Q.SectorEraseExactIff`), on a device of a power-of-two size exactly when
it is the only one there is (`M25Q.SectorEraseOnDevice`). Erase, verify, program and read gives the data back exactly when
the device carries out each command (`M25Q.Rewrite`).

**Motor.** The readings tell the position of three sensors a third of a turn apart; the tachometer shows the true displacement exactly when the shaft moves between -2 and 3 segments per reading.
The compensator forgets everything when disabled, obeys superposition within its limits, and does not wind up.

## Modelling choices

- Buffer positions are unbounded indices; there is no address arithmetic to wrap. Lengths, counts and integer widths are
  written out where they matter.
- The unpacking context reads its buffer and never writes it, so the buffer is a sequence there; where the code writes
  (packing buffer, receive buffer) it is an array.
- The union in the item record is two 32-bit words, as on the 32-bit target: a boolean, a float or a container size
  leaves the upper word, where a string's length is kept, as it was.
- Numbers are written and read a byte at a time in `Packer` and `Unpacker`; `Words` shows that the whole-word forms do the same.
  The number a register holds is the one its base-256 digits spell; that this is the ordinary value follows from
  `Words.Successor16`, `Words.Successor32` and `Words.Successor64`.
- Floating-point values inside messages are bit patterns. In the measurement and the compensator they are reals.
- Sine, cosine and the ratio between neighbouring frequencies are parameters of the measurement. Every access of the
  thread to the shared record is a step of its own; the interrupt is one step, as it preempts the thread.
- The flash device is told by a plan, quantified over, how long each command keeps it busy and whether it fails. A page
  write wraps inside its page and only clears bits; a program or erase command without write enable is ignored.

## Model

| member | source | states |
|---|---|---|
| Words.Agree16 | src/cwpack/cwpack_defines.h:113-114 | 16-bit swapped store and load equal the byte-at-a-time forms and undo each other |
| Words.Agree32 | src/cwpack/cwpack_defines.h:116-121 | the same at 32 bits |
| Words.Agree64 | src/cwpack/cwpack_defines.h:123-133 | the same at 64 bits |
| Words.BigEndian16 | src/cwpack/cwpack_defines.h:249-251 | the bytes stored are the big-endian bytes of the register's number, and a load yields the number in memory |
| Words.BigEndian32 | src/cwpack/cwpack_defines.h:253-256 | the same at 32 bits |
| Words.BigEndian64 | src/cwpack/cwpack_defines.h:258-268 | the same at 64 bits |
| Words.Successor16 | src/cwpack/cwpack_defines.h:113-114 | the number of a 16-bit register is the ordinary one: 0 for zero, the greatest for all ones, and one more after adding one |
| Words.Successor32 | src/cwpack/cwpack_defines.h:116-121 | the same at 32 bits |
| Words.Successor64 | src/cwpack/cwpack_defines.h:123-133 | the same at 64 bits |
| Bytes.SignedToBytes | src/cwpack/cwpack.c:488-503 | a signed integer cut to 1, 2, 4 or 8 bytes and sign-extended is itself |
| Format.ParsedInRange | src/cwpack/cwpack.c:427-526 | every decoded item is in the range of its kind; a negative integer is negative |
| Format.ReadBack | src/cwpack/cwpack.c:95-384 | what any legal packing call writes reads back as the item it means, whatever follows |
| Spelling.ReadsSpelling | src/cwpack/cwpack.c:412-529 | every spelling of every item by the MessagePack table, shortest or not, is read as the item, whatever follows |
| Spelling.ParseIff | src/cwpack/cwpack.c:412-529 | an item is read from any bytes iff those taken spell it |
| Spelling.FailIff | src/cwpack/cwpack.c:412-529 | each error and the place where reading stops: iff nothing is there, 0xc1 is there, or an item is cut off, behind its last complete part |
| Spelling.CutOffFails | src/cwpack/cwpack_defines.h:297-357 | a spelling cut anywhere underflows behind its last complete part, and the record then knows a blob's length iff that was complete |
| Spelling.WritesShortest | src/cwpack/cwpack.c:95-384 | a call writes the one shortest spelling of its item among the formats of its mode, unsigned ones for non-negative integers |
| Normal.RepackNormalises | src/cwpack/cwpack.c:95-384 | unpack and pack again: same item, never longer, hence a shortest spelling |
| Normal.SignedAgreesWithUnsigned | src/cwpack/cwpack.c:95-149 | both integer routines write the same bytes for 0 <= i < 2^63 |
| Normal.CompatibleFormats | src/cwpack/cwpack.c:249-384 | compatibility mode emits no binary, extension or 8-bit string tag; extensions are illegal there and nothing else is |
| Packer.PackContext.constructor | src/cwpack/cwpack.c:74-83 | an empty context over the first `length` bytes |
| Packer.PackContext.SetCompatibility | src/cwpack/cwpack.c:85-88 | only the mode changes |
| Packer.PackContext.Reserve | src/cwpack/cwpack_defines.h:161-176 | claims exactly `more` bytes, or claims none and records the overflow |
| Packer.PackContext.TryMove | src/cwpack/cwpack_defines.h:179-221 | tag and number are appended whole or not at all; no other byte of the buffer changes |
| Packer.PackContext.PackUnsigned | src/cwpack/cwpack.c:95-114 | appends the encoding whole, or only records an error; does nothing after an error |
| Packer.PackContext.PackSigned | src/cwpack/cwpack.c:117-149 | the same for signed integers |
| Packer.PackContext.PackFloat | src/cwpack/cwpack.c:152-159 | the same for a float's bits |
| Packer.PackContext.PackDouble | src/cwpack/cwpack.c:162-169 | the same for a double's bits |
| Packer.PackContext.PackNil | src/cwpack/cwpack.c:183-189 | the same for nil |
| Packer.PackContext.PackBoolean | src/cwpack/cwpack.c:192-216 | the same for booleans |
| Packer.PackContext.PackArraySize | src/cwpack/cwpack.c:219-231 | the same for array headers |
| Packer.PackContext.PackMapSize | src/cwpack/cwpack.c:234-246 | the same for map headers |
| Packer.PackContext.PackStr | src/cwpack/cwpack.c:249-285 | the same for strings, by mode |
| Packer.PackContext.PackBin | src/cwpack/cwpack.c:288-323 | the same for binaries, which are strings in compatibility mode |
| Packer.PackContext.PackExt | src/cwpack/cwpack.c:326-384 | the same for extensions, which are an illegal call in compatibility mode |
| Packer.PackContext.PackInsert | src/cwpack/cwpack.c:387-392 | appends raw bytes whole or not at all, even after an error |
| Packer.RunOk | src/cwpack/cwpack_defines.h:161-221 | a sequence of calls succeeds iff all are legal and their encodings fit; the output is their concatenation |
| Packer.RunFails | src/cwpack/cwpack_defines.h:161-221 | otherwise the output is the concatenation up to the first failing call, and the code is that call's error |
| Packer.ErrorSticks | src/cwpack/cwpack.c:97-98 | after an error no call writes or changes the code |
| Unpacker.UnpackContext.constructor | src/cwpack/cwpack.c:397-405 | a context at the start of the input with no error |
| Unpacker.UnpackContext.AssertSpace | src/cwpack/cwpack_defines.h:297-317 | claims `more` bytes, or records the given code and invalidates the item without moving |
| Unpacker.UnpackContext.GetItem | src/cwpack/cwpack_defines.h:330-351 | loads the big-endian number in the next 1, 2, 4 or 8 bytes, or records the underflow |
| Unpacker.UnpackContext.GetBlob | src/cwpack/cwpack_defines.h:320-323 | points the item at the next `length` bytes, or records the underflow |
| Unpacker.UnpackContext.GetExt | src/cwpack/cwpack_defines.h:353-357 | type byte, then data, with the error position of each shortage |
| Unpacker.UnpackContext.UnpackNext | src/cwpack/cwpack.c:412-529 | one call: item record, cursor and code after success and after each kind of failure; nothing once an error is set |
| Unpacker.PutHolds | src/cwpack/cwpack.h:92-139 | type code and words of the union for each kind of item, low word first, two's complement if negative |
| Unpacker.ViewPut | src/cwpack/cwpack.h:124-139 | every item in range is read back from the record it was put in |
| Unpacker.ViewAfterNext | src/cwpack/cwpack.c:412-529 | after success the record reads as the parsed item, and a blob lies inside the bytes just consumed |
| Stream.Verdict | src/cwpack/cwpack.c:412-529 | END_OF_INPUT iff a run of complete items; MALFORMED iff 0xc1 stands at an item boundary; BUFFER_UNDERFLOW iff the last item is cut short |
| Stream.ScanSettles | src/cwpack/cwpack.c:412-415 | that code is reached after at most length + 1 calls and stays |
| Stream.StaysInside | src/cwpack/cwpack_defines.h:297-317 | any number of calls stays in the buffer |
| Tree.BuildEncode | src/cwpack/cwpack.c:95-529 | every nested value, encoded and rebuilt, is itself, whatever follows |
| Tree.EncodeUnambiguous | src/cwpack/cwpack.c:95-384 | no encoding is a prefix of another: equal bytes mean equal values |
| Tree.EncodeShortest | src/cwpack/cwpack.c:95-384 | no spelling of a nested value is shorter than the packed one |
| Flat.BuildIff | src/cwpack/cwpack.c:412-529 | on any bytes, a nested value is decoded iff complete items stand there that spell it in pre-order |
| Flat.UnpackReadsValue | src/cwpack/cwpack.c:412-529 | unpacking a packed value call by call delivers its items in pre-order, then END_OF_INPUT |
| Flat.DecodeIsBuild | src/cwpack/cwpack.c:412-529 | on any bytes, decoding with the calls and the item record alone gives the value that stands there and leaves the cursor behind it, or gives none where there is none |
| Flat.PackUnpackValue | src/cwpack/cwpack.c:95-529 | any nested value: packing succeeds iff it fits, and then decoding the buffer call by call gives it back and finds the input exhausted |
| Skip.WalkExact | src/cwpack/cwpack.c:544-670 | counting items flatly ends well iff `k` complete values stand there, at the end of the last |
| Skip.TurnMatchesParse | src/cwpack/cwpack.c:548-669 | one turn of the loop passes the bytes and announces the children, or stops, as one unpacking would, unless an extension length wraps; where it stops inside an extension is said |
| Skip.SkimUnfolds | src/cwpack/cwpack.c:544-670 | on any bytes: each item is stepped over as unpacking would, its children added to a 32-bit count, and an extension whose length wraps stepped over as its header |
| Skip.SkimNone | src/cwpack/cwpack.c:544 | a count of zero or less skips nothing |
| Skip.SkimSimulatesWalk | src/cwpack/cwpack.c:535-672 | on any bytes, without wrap-around: same code as a loop of unpacking and, on success, same position; on an error at most one byte before |
| Skip.OkWalkDoesNotWrap | src/cwpack/cwpack.c:544-670 | pending items never exceed the bytes left, so below 2^31 bytes nothing wraps |
| Skip.SkipsWholeValues | src/cwpack/cwpack.c:535-672 | on `k` complete values in fewer than 2^31 bytes the result is OK exactly at the end of the last |
| Skip.SkipOkIffNoWrap | src/cwpack/cwpack.c:649-665 | an OK means `k` complete values iff no count or length wrapped on the way |
| Skip.SkipCanWrapMap | src/cwpack/cwpack.c:646-650 | a map header announcing 2^31 pairs is skipped as complete |
| Skip.SkipCanWrapExt | src/cwpack/cwpack.c:662-665 | an extension header announcing 2^32 - 1 bytes is skipped as complete |
| Skip.SkipOne | src/cwpack/cwpack.c:553-669 | one turn's bytes, announced items and error, with 32-bit arithmetic |
| Skip.SkipItems | src/cwpack/cwpack.c:535-672 | the loop: code and position of the 32-bit walk; the item record is kept on success and invalid on error |
| Command.MatchesIff | src/main.c:98-102 | a key matches a name iff it begins the name, or the name and a zero byte begin it |
| Command.MatchesNameIff | src/main.c:98-102 | matching a name is being that name iff the key is no mere beginning of one and does not begin with one and a zero byte |
| Command.FoldIsEffect | src/main.c:90-106 | walking items two by two sets each setting to the last value sent for it, or leaves it |
| Command.RecordAfterNext | src/cwpack/cwpack.h:126-138 | a boolean or float value leaves the key's length in the record |
| Command.HandlePair | src/main.c:91-105 | one key and value: the settings change by what was decoded; a non-string key or an error ends the command |
| Command.HandleIncomingCommand | src/main.c:73-107 | the settings afterwards are the interpretation of the message; nothing for another motor |
| Command.InterpretAnything | src/main.c:84-106 | every byte string: complete items, then a remainder that is none; nothing happens unless the first is a map of fewer than 2^31 pairs, else the complete pairs announced take effect up to a key that is no string |
| Command.PairsEffect | src/main.c:90-106 | walking pairs of a run that breaks off applies the complete ones |
| Command.PairsFold | src/main.c:88-106 | on any run of complete items the interpreter folds over them two by two |
| Comms.RunStaysInBuffer | src/comms.c:28-58 | over any callbacks the fill stays within 1024 bytes and the motor changes by deliveries alone |
| Comms.MessagesHandled | src/comms.c:28-58 | over any run of messages: one delivery per matching message of at most 1024 bytes, in order, equal to its chunks joined; none otherwise |
| Comms.MessageHandled | src/comms.c:17-58 | one message from any state: what is delivered, what the motor becomes, and that reception is closed again |
| Comms.AnyChunks | src/comms.c:28-58 | any announcement and any chunks from any state: what is delivered, what the motor becomes, and whether reception stays open |
| Comms.DeliveredWholeIff | src/comms.c:43-58 | whatever length was announced, a wanted message is delivered whole iff it fits the buffer |
| Comms.CommsContext.constructor | src/comms.h:23-45 | nothing is being received at first |
| Comms.CommsContext.ProcessIncomingPublish | src/comms.c:17-26 | the bytes collected are interpreted for the motor |
| Comms.CommsContext.PubCb | src/comms.c:28-41 | opens reception iff the topic matches and the message fits, and forgets what was collected |
| Comms.CommsContext.DataCb | src/comms.c:43-58 | appends a chunk that fits, drops one that does not, and interprets after the last |
| Comms.InterpretMap | src/main.c:84-106 | every packed map, nested or not, is interpreted as its flat items two by two |
| Comms.PairByPairIff | src/main.c:88-106 | a packed map does to every motor what its own keys and values would iff the items walked have the same effect |
| Comms.InterpretFlatMap | src/main.c:84-106 | a map with nothing nested in any entry but the last is interpreted pair by pair |
| Comms.ShortKeyTakesEffect | src/main.c:95-105 | a message with any beginning of a setting's name as its key, even none of it, changes that setting |
| Comms.KeyETakesEffect | src/main.c:95-101 | the packed map of "e" and true enables the motor |
| Comms.ActsAsNamedIff | src/main.c:95-105 | a one-pair message acts as the setting its key names, for every value and motor, iff the key is unambiguous |
| Comms.NestedValueTakesEffect | src/main.c:90-106 | a nested array whose elements change the motor, so that this map is not read pair by pair |
| Comms.SettingsFold | src/main.c:98-105 | applying settings in order is taking the last of each kind |
| Comms.CommandTakesEffect | src/comms.c:17-58 | end to end: settings packed in at most 1024 bytes, in any chunks, to any state, leave the last value of each |
| Comms.DispatchTelemetry | src/main.c:109-120 | the payload decodes to the map of one measured current |
| Comms.Heartbeat | src/comms.c:66-72 | the payload decodes to the map of the uptime |
| FreqResponse.RunKeeps | src/freq_response.c:9-70 | every interleaving keeps the protocol: configure, sample exactly n times, report on exactly those |
| FreqResponse.ReportsAreExact | src/freq_response.c:9-70 | each report is preceded by its configuration and exactly n samples, and is the normalised correlations of those |
| FreqResponse.SumsAreCorrelations | src/freq_response.c:53-62 | the running sums are the correlations with sine and cosine at the sampled phases |
| FreqResponse.CorrelationIsLinear | src/freq_response.c:56-62 | the correlation of a weighted sum of signals is the weighted sum of theirs |
| FreqResponse.RecoversResponse | src/freq_response.c:12-62 | where sine and cosine are orthogonal over the samples: amplitudes in phase and in quadrature are reported as such, with the frequency and the excitation's magnitude |
| FreqResponse.SweepIsGeometric | src/freq_response.c:23-26 | for a ratio above one and a record that starts at zero: in every run the j-th frequency is the lowest times the ratio to the power j modulo the length of the sweep |
| FreqResponse.SweepStaysInRange | src/freq_response.c:24-39 | in every run from the first configuration on: frequency within the sweep except between scaling and clamping; phase exactly that of the samples so far and, up to the next clearing, within one turn if the sweep does not exceed the sampling frequency |
| FreqResponse.PhaseIsExact | src/freq_response.c:49-51 | after k samples the phase is k increments less whole turns |
| FreqResponse.PhaseBoundedIff | src/freq_response.c:49-51 | the phase stays in one turn for ever iff the increment is at most one turn |
| FreqResponse.IncrementIff | src/freq_response.c:28-29 | a turn times the frequency over the sampling frequency; at most one turn iff the frequency does not exceed the sampling frequency |
| FreqResponse.WholeWavelengths | src/freq_response.c:28-37 | the samples of a frequency span its wavelengths, short by less than one sample; with a negative setting too |
| FreqResponse.PollIs | src/freq_response.c:9-41 | an uninterrupted poll reports the finished measurement and configures the next frequency |
| FreqResponse.PollIsARun | src/freq_response.c:9-41 | an uninterrupted poll is one of the runs of small steps |
| FreqResponse.Measurement.UpdateWithOffset | src/freq_response.c:47-70 | the record after one sample and the value returned; nothing changes when no samples are pending |
| FreqResponse.Measurement.Poll | src/freq_response.c:9-41 | nothing while samples are pending; else the steps of the thread in order, with the report they make |
| M25Q.M25QDriver.PollStatus | lib/chibios_18.2.1/os/ex/Micron/m25q.c:290-312 | waits until ready, reports the error flags and clears them |
| M25Q.M25QDriver.Read | lib/chibios_18.2.1/os/ex/Micron/m25q.c:324-361 | the bytes of the range, by one read command, or busy; driver and bus as before |
| M25Q.M25QDriver.ProgramPages | lib/chibios_18.2.1/os/ex/Micron/m25q.c:383-414 | the chunks tile the range: success iff every page write succeeds, then memory is old AND data; else bits of the range were only cleared |
| M25Q.M25QDriver.Program | lib/chibios_18.2.1/os/ex/Micron/m25q.c:363-423 | the same with driver and bus: released always, READY on success, still programming after a failure, untouched while erasing |
| M25Q.AllSucceedIff | lib/chibios_18.2.1/os/ex/Micron/m25q.c:383-414 | one write for each page touched: all succeed iff none of that many outcomes fails |
| M25Q.PageWriteInPage | lib/chibios_18.2.1/os/ex/Micron/m25q.c:387-398 | a chunk that ends at the page boundary is written without wrapping |
| M25Q.PageMask | lib/chibios_18.2.1/os/ex/Micron/m25q.c:388 | the 32-bit mask arithmetic yields the room left in the page, as the page loop takes it |
| M25Q.ErasedReadsBack | lib/chibios_18.2.1/os/ex/Micron/m25q.c:363-423 | an erased range reads back what was programmed |
| M25Q.EraseProgramRead | lib/chibios_18.2.1/os/ex/Micron/m25q.c:363-484 | memory with a block set to ones and then programmed inside it holds the data there |
| M25Q.Rewrite | lib/chibios_18.2.1/testex/STM32/STM32L4xx/QSPI-N25Q128/main.c:117-155 | erase, wait, verify, program, verify, read: the data comes back iff the erase and every page write succeed; the second verify fails unless the data is all ones; the error, memory and driver otherwise |
| M25Q.M25QDriver.WaitErase | lib/chibios_18.2.1/os/hal/lib/peripherals/flash/hal_flash.c:59-74 | terminates with the driver and result of the first query that finds the device done |
| M25Q.M25QDriver.StartEraseAll | lib/chibios_18.2.1/os/ex/Micron/m25q.c:425-452 | starts erasing the whole memory, or is refused with nothing changed while an erase is in progress |
| M25Q.M25QDriver.StartEraseSector | lib/chibios_18.2.1/os/ex/Micron/m25q.c:454-484 | starts erasing the 64 kB block of the sector's address, or is refused with nothing changed |
| M25Q.SectorEraseExactIff | lib/chibios_18.2.1/os/ex/Micron/m25q.c:457-478 | whatever memory held, an erase that succeeds sets exactly the sector to ones iff sub-sectors are not in use or the sub-sector is alone in its block |
| M25Q.SectorEraseOnDevice | lib/chibios_18.2.1/os/ex/Micron/m25q.c:703-705 | on a device of a power-of-two number of sectors: iff sub-sectors are not in use or there is only one |
| M25Q.NeighbourLost | lib/chibios_18.2.1/os/ex/Micron/m25q.c:457-478 | otherwise every byte of another sub-sector is set to ones |
| M25Q.M25QDriver.QueryErase | lib/chibios_18.2.1/os/ex/Micron/m25q.c:550-603 | result, driver state and bus in each case; a failed erase keeps the bus |
| M25Q.EraseCycle | lib/chibios_18.2.1/os/ex/Micron/m25q.c:425-603 | every query before the device is done says busy; the next says success with the block all ones, or failure with memory unchanged |
| M25Q.EraseUndisturbed | lib/chibios_18.2.1/os/ex/Micron/m25q.c:425-603 | until an erase is done, further starts in any number and mixture with queries change nothing: it ends as if only waited for |
| M25Q.PowersDivide | lib/chibios_18.2.1/os/ex/Micron/m25q.c:510-538 | a power-of-two buffer no larger than the sector fits it a whole number of times |
| M25Q.M25QDriver.CompareSector | lib/chibios_18.2.1/os/ex/Micron/m25q.c:511-539 | terminates and says whether all bytes are ones; which ranges are read, up to the first buffer that differs |
| M25Q.M25QDriver.VerifyErase | lib/chibios_18.2.1/os/ex/Micron/m25q.c:486-548 | NO_ERROR iff every byte of the sector is 0xff; driver READY and bus released on every path; the ranges read |
| M25Q.ComparedInOrder | lib/chibios_18.2.1/os/ex/Micron/m25q.c:511-539 | the ranges read follow one another from the sector's start, and cover it when all is erased |
| Tach.CountsDisplacementIff | src/tach.c:8-23 | from the sensors' readings the counter shows the true displacement at every moment iff every move is between -2 and 3 segments |
| Tach.CountsModuloTurn | src/tach.c:8-23 | however fast the shaft, the count is right modulo six |
| Tach.UnwrapExact | src/tach.c:11-17 | one step is right iff the move is between -2 and 3 segments |
| Tach.SegmentIsPosition | src/hall_sensors.h:10-19 | at every position of the shaft the reading's segment is the position modulo six, and a step switches exactly one sensor |
| Tach.SegmentIff | src/hall_sensors.c:8-32 | every reading of the three sensors has its segment; all on and all off count as segment 0 |
| Tach.Tachometer.Init | src/tach.c:4-6 | the segment is set and the counter kept |
| Tach.Tachometer.TachUpdate | src/tach.c:8-23 | one update of segment and counter |
| Compensator.Biquad.constructor | src/biquad.c:7-15 | coefficients stored, history zero |
| Compensator.Biquad.Reset | src/biquad.c:17-19 | history zero, coefficients kept |
| Compensator.Biquad.UpdateLim | src/biquad.c:21-36 | the new history and output |
| Compensator.DifferenceEquation | src/biquad.c:21-36 | each output is the limited difference equation in past inputs and outputs |
| Compensator.LimitedIsLinearIff | src/biquad.c:27 | the limits never show iff the unlimited filter never leaves them |
| Compensator.Superposition | src/biquad.c:21-36 | unsaturated runs of any length obey superposition |
| Compensator.NoWindUp | src/motor_control.c:55-59 | after two outputs at a limit the next leaves it iff the weighted inputs point the other way |
| Compensator.FreshSinceDisabled | src/motor_control.c:92-114 | each enabled output is that of a fresh filter fed the errors since the last disabled callback, and within the duty limit |
| Compensator.MotorLoop.MotorControlCb | src/motor_control.c:82-117 | enabled: measure, then filter the error, with the excitation while samples are pending, within the duty limit; disabled: zero output and a reset filter |

## Left out

- Packer.PackContext.PackStr: blobs of 2^32 - 6 bytes and more are excluded, because adding the header length wraps in 32 bits there; the same holds for PackBin and PackExt.
- Packer.PackContext.Reserve: no overflow handler, as the firmware installs none; likewise no underflow handler in Unpacker.UnpackContext.AssertSpace.
- M25Q.M25QDriver.VerifyErase: compare buffers that are not a power of two or exceed the sector are excluded, as the configuration header requires.
- FreqResponse.ReportsAreExact: settings under which a frequency would get no sample are excluded; the code would divide by zero there.
- `cw_pack_real`: it needs the rounding of floats and only chooses between two routines that are modelled.
- The test of the byte order and the variant for big-endian machines, where stores and loads are plain copies.
- `strncmp` reading behind the received bytes: such reads compare unequal in the model; they can only happen when the value was not a boolean or float, where the comparison has no effect.
- The network connection loop, MQTT and UDP calls, thread creation and sleeping; whether and when a heartbeat or telemetry is due.
- Register writes, the conversion of the duty to a timer count, ADC flags and the error counter of the motor interrupt.
- Overflow of the tachometer's 32-bit counter; IEEE rounding in measurement and compensator.
- `BiquadUpdate`, a wrapper whose lower limit is the smallest positive float; it is not on the motor's path.
- Erase suspension: the modelled flash device never reports it.
- The flash driver's start and stop, bus-width, XIP and reset commands: no data property.
- The EEPROM reader, the hex helper and the sensor drivers: short shifts and scalings that would add only easy members.
