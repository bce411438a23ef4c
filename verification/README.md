# Meshtastic firmware: protocol, framing and state-machine models

A Dafny model of the parts of the firmware that carry state over unbounded runs, with proofs of what
they are for. Each component the firmware writes as an object or as loops over buffers is a class or a
method here, proved equal to a specification function; the properties are then proved about that
function, over every input or every run.

| component | files | main results |
|---|---|---|
| XMODEM | Polynomials, Crc, Xmodem, XmodemSender, Paths, XmodemSession, XmodemReplies, XmodemLimits | the CRC is polynomial division; what the receiver answers and stores over every run; the exact file sizes up to which every transfer is faithful over losing, reordering and damaging channels that copy nothing, anything but acknowledgements, or anything, and up to which every session ends |
| GPIO network | Gpio | change-driven propagation over the heap terminates; every pin is the conjunction, disjunction or parity of the pins above it |
| Safe file replacement | FileSteps, Saves, SafeFile | at a crash between any two file-system steps the old or the new bytes are whole; when the next save keeps them; what a save that reports success has left, in both modes; exact conditions for copying and appending platforms |
| UF2 converter | Uf2Format, Uf2Images, HexText, Uf2Conv | binary and Intel HEX round trips, from the text to memory, with exact conditions |
| UBX framing | Ubx, UbxReceive | frames are given back and nothing else is; what the Fletcher pair detects |
| Air time | AirTimeModel, DutyCycle, AirTime | rotating buckets are a full log; what the duty-cycle gate bounds, and what escapes it |
| E-ink refresh chooser | EInkModel, EInk | always decided; the strongest waiting request decides, weaker ones are lost; how often frames are due; fast refreshes bounded |
| Sensor fusion | FusionMath, FusionAhrs, FusionAlignment, FusionRecovery | rotation algebra over exact reals; feedback aligns the attitude with the sensors, exactly when; bounded sensor outage |
| Colour panel | TftModel, Tft | differential redraw equals full redraw, with the exact screen size up to which it does |
| Open Location Code | Olc | the code decodes to the cell that contains the point |
| Battery curve | Battery | range, monotonicity and table entries of the interpolation |
| Observers | Observer | the two lists stay dual; notification order |
| Text | Strnstr, Glyphs | bounded search; UTF-8 to font table |

Basics holds the few types and functions that several of them need.

`dafny verify dfyconfig.toml` checks the whole project.

How to read it:

- Runs are sequences of events. A theorem about runs quantifies over all of them. The sizes that some
  name are exact, with counterexamples past them; the other bounds are the ranges of 32-bit counters,
  listed under "Left out".
- Machine widths are written out: CRC words and XMODEM bytes are bit sequences, `uint16_t` packet
  numbers and pixel positions and `uint32_t` buckets and sums are reduced modulo their size.
  `float` and `double` are exact reals.
- Results of calls that the code cannot influence (whether a file opens, what a medium keeps, whether
  a panel is busy, which bytes a port delivers, the time) are parameters that the theorems quantify
  over.

Where the code and its own comments or messages disagree, the model follows the code:

- `convert_from_uf2` announces that it skips a block with bad magic, but building that message adds a
  number to a string and raises; such a block fails the conversion (bin/uf2conv.py:68-70).
- `latLongToOLC` computes a grid digit at index 11 that is never emitted: eleven characters are ten
  digits and the separator (src/gps/GeoCoord.cpp:289-330).
- `getACK` returns a payload without reading or checking the two checksum bytes behind it
  (src/gps/GPS.cpp:340-411), so soundness there speaks of header and payload only.
- The first tick clears the buckets but not `air_period_tx` and `air_period_rx`
  (src/airtime.cpp:181-189); `GlobalsMirrorExactly` says when that shows, and
  `EarlyTransmissionsEscape` what the gate then misses.
- A gyroscope overrange clears the accelerometer measurement that was stored just before
  (src/Fusion/FusionAhrs.c:127-135).

Several properties hold only under a condition that the code does not check. Each is proved as an
equivalence or beside a lemma with a failing input: `XmodemSender.SessionEndsExactly`,
`XmodemSender.SentAtMostExactly`, `XmodemLimits.FaithfulExactly`,
`FileSteps.DeliversExactlyWhenItFits`, `FileSteps.FaithfulSaveSucceeds`, `Saves.NextSaveKeepsExactly`,
`Uf2Format.DecodeInvertsEncode`, `UbxReceive.FrameReceivedExactly`,
`AirTimeModel.GlobalsMirrorExactly`, `DutyCycle.DutyCycleHoldsExactly`,
`DutyCycle.EverythingWithinExactly`, `EInkModel.UndecidedExactly`, `EInkModel.CosmeticRequestLost`,
`FusionRecovery.FlagShowsTimeout`, `FusionAlignment.AccelerometerAligns`, `TftModel.ShowsBufferExactly`.

## Model

| member | source | states |
|---|---|---|
| `Crc.Crc16Ccitt` | src/xmodem.cpp:66-80 | the byte-at-a-time loop with its shift tricks computes `CrcOf`, for a buffer of any length |
| `Crc.CrcIsTheRemainder` | src/xmodem.cpp:66-80 | a polynomial of degree below 16 is the remainder of message * x^16 by x^16+x^12+x^5+1 over GF(2) if and only if it is the CRC (section 2 of ITU-T V.41) |
| `Crc.CrcIsBitSerial` | src/xmodem.cpp:66-80 | the byte-wise CRC is the bit-serial shift register fed with the bits of the message |
| `Crc.CrcLinear` | src/xmodem.cpp:66-80 | CRC of the XOR of two buffers of equal length is the XOR of their CRCs |
| `Crc.UndetectedExactly` | src/xmodem.cpp:82-94 | two buffers of any lengths have the same CRC if and only if their difference times x^16 is a multiple of the generator |
| `Crc.BurstDetected` | src/xmodem.cpp:82-94 | damage confined to sixteen consecutive bits changes the CRC |
| `Crc.OddFlipsDetected` | src/xmodem.cpp:82-94 | damage to an odd number of bits changes the CRC |
| `Crc.AdjacentBytesDetected` | src/xmodem.cpp:82-94 | a buffer that passes `check` fails it after any damage to one byte or to two adjacent bytes |
| `Polynomials.RemainderUnique` | src/xmodem.cpp:66-80 | division by the generator has only one remainder of degree below 16 |
| `Polynomials.MultipleSpansMoreThanSixteen` | src/xmodem.cpp:66-80 | a nonzero multiple of the generator spans more than sixteen exponents |
| `Polynomials.MultipleHasEvenTerms` | src/xmodem.cpp:66-80 | every multiple of the generator has an even number of terms |
| `Polynomials.TimesGOfOne` | src/xmodem.cpp:66-80 | multiplying by the generator takes 1 to the exponents 16, 12, 5 and 0 |
| `Xmodem.XModemAdapter.HandlePacket` | src/xmodem.cpp:114-253 | one packet takes the whole adapter state, files included, and the packet sent in answer to what `Handle` says, over which the session theorems and the laws of `XmodemReplies` are proved |
| `Xmodem.XModemAdapter.Open` | src/xmodem.cpp:119-155 | opening a session: the state, files and first packet of `HandleOpen` |
| `Xmodem.XModemAdapter.Data` | src/xmodem.cpp:157-175 | a data packet: the state, files and reply of `HandleData` |
| `Xmodem.XModemAdapter.Acknowledged` | src/xmodem.cpp:193-221 | an ACK: the state and packet of `HandleAck` |
| `Xmodem.XModemAdapter.Refused` | src/xmodem.cpp:222-248 | a NAK: the state and packet of `HandleNak` |
| `Xmodem.XModemAdapter.SendNextChunk` | src/xmodem.cpp:206-216 | reading and sending the next chunk, with the end-of-file flag |
| `XmodemSender.StartSend` | src/xmodem.cpp:133-151 | an STX for an existing file of any size starts a session that has just sent the bytes from offset 0 as number 1 |
| `XmodemSender.AckStep` | src/xmodem.cpp:193-216 | an ACK sends the bytes behind the last ones under the next number modulo 2^16, with a full retransmit budget, or EOT after a short read |
| `XmodemSender.NakStep` | src/xmodem.cpp:222-243 | a NAK seeks to the offset that the number stands for, which after the wrap is not where the sender was, stays there if the file has no such offset, and sends from there with one try fewer, or cancels |
| `XmodemSender.EndsWithinBudget` | src/xmodem.cpp:193-248 | from any point of a session of a file below 65537 * 128 bytes, under any ACKs and NAKs, EOT or CAN is said before the budget of replies is spent, and only pieces of the file until then: below 65535 * 128 bytes the chunk each number stands for |
| `XmodemSender.SessionEndsExactly` | src/xmodem.cpp:193-248 | every session of a file ends within MAXRETRANS replies per chunk if and only if the file has fewer than 65537 * 128 bytes, and from that size on no number of replies is sure to end it |
| `XmodemSender.SessionNeverEnds` | src/xmodem.cpp:222-235 | counterexample: 65536 ACKs and one NAK, over and over, since the number is 1 again then and the NAK seeks to the start of the file |
| `XmodemSender.SentAtMostExactly` | src/xmodem.cpp:222-231 | in every session each number goes out at most MAXRETRANS times, however long the replies go on, if and only if the file has fewer than 65536 * 128 bytes |
| `XmodemSender.FirstNumberSentAgain` | src/xmodem.cpp:193-235 | counterexample from that size on: 65536 ACKs bring number 1 again, and refusing it uses up a second budget |
| `XmodemSession.StartInv` | src/xmodem.cpp:119-151 | a fresh sender and a receiver just opened satisfy the transfer invariant |
| `XmodemSession.ReceiverTakesOnlyNext` | src/xmodem.cpp:157-169 | whatever arrives, the receiver stores nothing but the chunk it waits for |
| `XmodemSession.SenderKeepsUp` | src/xmodem.cpp:193-248 | the sender is at the chunk the receiver waits for, or one behind with an acknowledgement under way |
| `XmodemSession.StepKeepsInv` | src/xmodem.cpp:114-248 | deliveries, losses, reorderings, detectable damage and copies of anything but acknowledgements keep the invariant; an EOT finds the whole file stored |
| `XmodemSession.TransferIsFaithful` | src/xmodem.cpp:114-248 | over every run of the two adapters and of channels that do not copy acknowledgements, for at most 65535 chunks: while the receiver is open its file is a prefix of the sender's, and when it handles EOT its file is the sender's file |
| `XmodemSession.BurstsArriveDamaged` | src/xmodem.cpp:82-94 | a burst of up to sixteen bits in a chunk is damage that the receiver detects |
| `XmodemReplies.ReceiverAnswersExactly` | src/xmodem.cpp:114-192 | for a file of any size, over every run and every channel, the step that ends it included: the receiver has sent one ACK for its opening, one for each data packet that arrived undamaged under the next number, and one for the EOT or CAN, and a NAK for every other packet; its file system is what it was when opened with the bytes of those packets under the file's name, or without that name after a CAN; the sender's files are untouched |
| `XmodemReplies.WholeFileAcknowledged` | src/xmodem.cpp:114-182 | for at most 65535 chunks, over channels that do not copy acknowledgements: a receiver that has handled EOT has sent exactly two ACKs more than the file has chunks, and its file system differs from the one it was opened with by the sender's file alone |
| `XmodemReplies.NameIsCopied` | src/xmodem.cpp:119-121 | the file name begins with the bytes of the opening packet, and what a shorter packet does not reach is left of the name before |
| `XmodemReplies.RefusedOpening` | src/xmodem.cpp:122-155 | a file that cannot be opened is refused with NAK, and the adapter stays idle with its files untouched |
| `XmodemReplies.OutOfTurnIsCancelled` | src/xmodem.cpp:170-221 | a reply to an adapter that sends nothing, and data for one that sends, is answered CAN; the one changes nothing else and the other ends the sending |
| `XmodemReplies.OneRole` | src/xmodem.cpp:114-253 | no packet makes an adapter sender and receiver at once; every answer is the packet it stores; unanswered, and without effect, go exactly the unused control codes and numbered data without a session |
| `XmodemReplies.CancelledSenderLosesFile` | src/xmodem.cpp:184-192 | a CAN that reaches a sender removes the file it was sending |
| `XmodemLimits.CleanTransferCompletes` | src/xmodem.cpp:114-248 | for a file of any size some run of deliveries alone ends with an EOT that finds the whole file stored |
| `XmodemLimits.FaithfulExactly` | src/xmodem.cpp:114-248 | every run from a fresh session is faithful in that sense if and only if the file has at most 128 bytes over channels that may copy anything, fewer than 65535 * 128 if they copy anything but acknowledgements, at most 65535 * 128 if they copy nothing, and any size if they only deliver |
| `XmodemLimits.CarriedFaithfully` | src/xmodem.cpp:114-248 | the half of it that says up to which size every run is faithful, whatever is lost, damaged, reordered and copied |
| `XmodemLimits.ChunkSkipped` | src/xmodem.cpp:222-243 | counterexample for every longer file: deliveries from a fresh session lead to the chunk numbered 0, damage to it once makes the sender skip its bytes, and the run goes on to an EOT that finds a shorter file |
| `XmodemLimits.StaleChunkAppended` | src/xmodem.cpp:157-169 | counterexample at exactly 65535 full chunks: the receiver comes to wait for number 1 again, and a copy of the first chunk is appended before the EOT |
| `XmodemLimits.AcknowledgementsCopied` | src/xmodem.cpp:193-203 | counterexample for every file of more than one chunk: copies of the first acknowledgement bring the sender to EOT while the receiver holds one chunk |
| `XmodemLimits.WrappedResendIsWrong` | src/xmodem.cpp:222-243 | wherever it is in the file, a sender at number 0 answers a NAK with the bytes behind the refused ones |
| `Gpio.GpioTransformer.OneInput` | src/GpioLogic.cpp:26-34 | construction links the input pin and drives nothing |
| `Gpio.GpioTransformer.TwoInputs` | src/GpioLogic.cpp:60-71 | construction links both input pins and drives nothing |
| `Gpio.Set` | src/GpioLogic.h:151-155 | setting a pin, a splitter included, shows the value on all it leads to, unsettles no other transformer and touches nothing upstream |
| `Gpio.SetVirt` | src/GpioLogic.cpp:4-11 | a change-driven set terminates and leaves every transformer that was settled settled, those downstream included |
| `Gpio.Drive` | src/GpioLogic.cpp:21-24 | driving an output settles what hangs on it and leaves the driver's inputs alone |
| `Gpio.Update` | src/GpioLogic.cpp:36-100 | the three update methods settle the transformer unless all its inputs are unset, and unsettle no other |
| `Gpio.FreshIsSettled` | src/GpioLogic.cpp:60-71 | a network in which nothing was set is settled |
| `Gpio.SettledIsEvaluated` | src/GpioLogic.cpp:36-100 | in a settled network each virtual pin shows what plain Boolean evaluation from the sources gives, an unset input of a binary transformer being ignored |
| `Gpio.HardwareIsEvaluated` | src/GpioLogic.cpp:13-17 | the same for every hardware pin that a transformer reaches |
| `Gpio.PinCombinesEnds` | src/GpioLogic.cpp:73-100 | without reference to what a transformer computes: in a settled network, for each of And, Or and Xor, a pin is unset while every pin at the ends of the tree of that kind above it is, and else On if and only if all of those set are On, some are, or an odd number |
| `Gpio.InputsCombineEnds` | src/GpioLogic.cpp:73-100 | the same of the two inputs of a transformer together |
| `Gpio.EndsAreThere` | src/GpioLogic.cpp:60-71 | that tree is followed to its ends: pins that nothing drives, or transformers of another kind, plain ones being passed through |
| `Gpio.SettledComputes` | src/GpioLogic.cpp:36-100 | so each hardware and virtual pin that a transformer reaches is the conjunction, disjunction or parity of the ends, the input of a plain transformer, or the input of a Not flipped |
| `Gpio.SetSources` | src/GpioLogic.cpp:4-100 | after any run of set calls on undriven pins each source shows its last set value, and each pin that a transformer reaches, hardware pins included, shows the conjunction, disjunction or parity of the set pins at the ends of its tree, or its input flipped or plain; every virtual pin shows its Boolean evaluation |
| `Gpio.PinsAreWired` | src/GpioLogic.cpp:4-17 | pins as constructed, before any transformer, are a wired network |
| `Gpio.Construct` | src/GpioLogic.cpp:26-71 | constructing a transformer on unread inputs and an undriven output turns one wired network into a larger one, in whatever order the transformers are made, unless that closes a cycle |
| `Gpio.AnyCouldBeLast` | src/GpioLogic.cpp:26-71 | any transformer of a wired network meets the conditions for being constructed last, so they refuse nothing but cycles and shared outputs |
| `Gpio.DrivenEvaluates` | src/GpioLogic.cpp:36-100 | a driven pin evaluates to the meaning of its one driver's inputs, whichever driver the evaluation picks |
| `SafeFile.CopyLoopMethod` | src/FSCommon.cpp:110-113 | the 16-byte chunk loop passes through the crash points of `CopyLoop`, write results ignored |
| `SafeFile.CopyFileMethod` | src/FSCommon.cpp:95-119 | all crash points and the result of a copy, failed opens included |
| `SafeFile.RenameFileMethod` | src/FSCommon.cpp:130-150 | all crash points and the result of a rename, atomic or copy-then-remove |
| `SafeFile.SafeFile.constructor` | src/SafeFile.cpp:6-23 | construction: the old file removed only without fullAtomic, the temporary file opened for writing as the platform does it, emptied or kept, the error flag cleared |
| `SafeFile.SafeFile.Write` | src/SafeFile.cpp:25-44 | the running hash covers the bytes handed over, the file only those the medium kept |
| `SafeFile.SafeFile.ReadbackOk` | src/SafeFile.cpp:77-103 | readback passes if and only if the file opens, its hash agrees and no error was flagged |
| `SafeFile.SafeFile.Close` | src/SafeFile.cpp:51-74 | close goes through the crash points of `CloseSteps` and returns its verdict |
| `FileSteps.CopyLoopKeepsSource` | src/FSCommon.cpp:110-113 | the source is whole at every crash point of a copy |
| `FileSteps.CopyLoopFillsTarget` | src/FSCommon.cpp:110-113 | at the end of a copy the target holds just as much of the source as there was room for, and no other file has changed |
| `FileSteps.CloseIsCrashSafe` | src/SafeFile.cpp:51-74 | fullAtomic close: at every crash point the named file is as it was, or the verified bytes are whole under one of the two names; true means under the name |
| `FileSteps.DeliversExactlyWhenItFits` | src/FSCommon.cpp:130-150 | with or without fullAtomic, for all outcomes of the calls: a true close has the verified bytes under the name, no temporary file, and every other file as before, if and only if the rename is atomic or the copy fits beside the temporary file |
| `FileSteps.CloseDelivers` | src/SafeFile.cpp:51-74 | the half of it that says so for every outcome, with the readback that a true close, or one that touched anything, has passed |
| `FileSteps.SaveDelivers` | src/SafeFile.cpp:6-103 | with or without fullAtomic, a whole save that reports success has left what it wrote, with the hash of what it was given, in place of the old file, and nothing else has changed |
| `FileSteps.DiskBeforeClose` | src/SafeFile.cpp:6-44 | when close begins, the old file is there just with fullAtomic, and only the temporary file is new |
| `FileSteps.SaveKeepsOthers` | src/SafeFile.cpp:6-103 | whatever fails, no step of a save touches a file other than the two of its name |
| `FileSteps.CopyWithoutRoomLosesData` | src/FSCommon.cpp:110-118 | counterexample: without room, copy-then-remove reports success and has lost the tail of the data |
| `FileSteps.SaveIsCrashSafe` | src/SafeFile.cpp:6-103 | the same guarantee over a whole save, from construction through any writes to the end of close |
| `FileSteps.OneWrongByteChangesHash` | src/SafeFile.cpp:38-41 | buffers that differ in one byte have different XOR hashes |
| `FileSteps.OneWrongByteFailsTheSave` | src/SafeFile.cpp:77-103 | a save of which one byte was stored wrongly, anywhere, makes close return false, unless bytes of an unfinished save were kept in front of it and have a hash other than zero |
| `FileSteps.FaithfulSaveSucceeds` | src/SafeFile.cpp:51-74 | with or without fullAtomic, when the medium keeps every byte, has room and no call fails: close returns true if and only if the bytes kept from an unfinished save have hash zero; then the file holds those and the bytes handed over, the temporary file is gone, and it holds exactly the bytes handed over if and only if none were kept |
| `FileSteps.SucceedsExactly` | src/SafeFile.cpp:77-103 | with or without fullAtomic and with no call failing, close returns true if and only if the hashes of the kept old bytes, the stored bytes and the bytes handed over cancel |
| `FileSteps.ReportsExactly` | src/SafeFile.cpp:6-103 | with any outcome of the calls: a save reports success if and only if those hashes cancel, no error was flagged, and every call that this platform and mode need has succeeded |
| `Saves.NamedFileAfterSave` | src/SafeFile.cpp:6-103 | one fullAtomic save cut at any step: the named file is as it was until close makes its first step, then gone, then it grows by sixteen bytes at a time or appears at once, and close makes that step only when the readback hash agreed |
| `Saves.InPlaceExactly` | src/SafeFile.cpp:51-74 | a save that close has begun to put in place leaves the verified bytes whole under the name if and only if it did not end between the removal of the old file and the last byte of the new one |
| `Saves.NamedFileSurvives` | src/SafeFile.cpp:6-103 | over any number of saves, each cut or failing anywhere outside that window, the named file is whole and holds what the last save that began to replace it wrote, or the first content |
| `Saves.NextSaveKeepsExactly` | src/SafeFile.cpp:6-23 | where opening empties a file: once the next save has opened its temporary file, verified bytes are whole under one of the names if and only if the save before did not end in that window; else the named file is gone or cut short |
| `Saves.LaterSavesPassExactly` | src/SafeFile.cpp:6-23 | where opening appends: bytes that a save verified and that were not taken away stay in front of every later save, however many come and wherever they are cut, and a faithful one passes if and only if what stands in front has hash zero |
| `Uf2Conv.ConvertToUf2` | bin/uf2conv.py:106-135 | the block loop writes the encoding of the content cut into zero-padded pages, or fails where struct.pack would raise |
| `Uf2Conv.ConvertFromUf2` | bin/uf2conv.py:59-93 | the block loop returns the padded concatenation and the start address of `Decode`, or fails where the script raises |
| `Uf2Conv.ConvertBlock` | bin/uf2conv.py:64-92 | one block: skipped, refused, or its padding and data appended |
| `Uf2Conv.PadGap` | bin/uf2conv.py:88-90 | the four-at-a-time loop appends exactly the gap in zeros |
| `Uf2Conv.MemoryBlock.Encode` | bin/uf2conv.py:143-163 | a page encodes to the 512-byte block of the format |
| `Uf2Conv.StoreByte` | bin/uf2conv.py:193-199 | a byte goes into the current page, changed in place, or opens a new zeroed page |
| `Uf2Conv.StoreData` | bin/uf2conv.py:192-199 | the data loop of a record leaves the pages of all writes so far |
| `Uf2Conv.ReadRecord` | bin/uf2conv.py:175-179 | reading the pairs of a line gives its bytes, or fails at a pair that int() refuses, for all characters that `is_hex` lets through |
| `Uf2Conv.TakeRecord` | bin/uf2conv.py:180-199 | a record sets the upper address, ends the file or stores data |
| `Uf2Conv.ConvertFromHexToUf2` | bin/uf2conv.py:166-204 | the line loop encodes the pages of all data writes before the end record, or fails where the script raises |
| `Uf2Format.DecodeInvertsEncode` | bin/uf2conv.py:59-93 | decoding the encoding of any pages succeeds if and only if they ascend with word-aligned gaps within the padding limit, and then gives them joined with zeros in the gaps |
| `Uf2Format.FileIsBlocks` | bin/uf2conv.py:143-163 | each block of an encoded file, byte by byte: the magic numbers, the family flag, address, length, its number, the number of blocks and the family in little-endian words, the page, zeros, and the magic end |
| `Uf2Format.ForeignBlock` | bin/uf2conv.py:64-92 | a block of any origin, read byte by byte: skipped with the no-flash flag, refused with more than 476 bytes or behind a gap that is negative, not a multiple of four or above the limit, and else appended after its gap in zeros |
| `Uf2Format.OtherMagicFails` | bin/uf2conv.py:67-70 | a block with other magic numbers fails the conversion |
| `Uf2Images.BinaryRoundTrip` | bin/uf2conv.py:106-135 | converting a binary to UF2 and back gives the content zero-padded to a multiple of 256, and its start address |
| `Uf2Images.BinaryConvertsExactly` | bin/uf2conv.py:106-135 | a binary converts if and only if its addresses, block count and family fit 32 bits |
| `Uf2Images.OrderlyExactlyWhenAscending` | bin/uf2conv.py:192-199 | the pages built from writes can be decoded if and only if the writes stay in or step up from the current page, within the limit |
| `Uf2Images.ImageIsMemory` | bin/uf2conv.py:192-199 | those pages joined are the memory image: at each address the last byte written there, zero where none was |
| `Uf2Images.HexRoundTrip` | bin/uf2conv.py:166-204 | Intel HEX to UF2 and back succeeds if and only if the data ascends, and then gives the memory image from the first page start to the last page end |
| `HexText.TextIsRead` | bin/uf2conv.py:166-204 | lines of hexadecimal digits as a producer writes them, with length, address high byte first, type, data and checksum, each stretch behind a record of type 04 or 02 for its upper address, entry records and remarks among them, with or without carriage returns: up to the end record they are read as exactly the bytes of the stretches at their addresses, and what follows is not read |
| `HexText.TextRoundTrip` | bin/uf2conv.py:166-204 | from such a text to UF2 and back: accepted if and only if the stretches ascend, and then memory holds at each address the last byte that the text puts there |
| `Ubx.Gps.UBXChecksum` | src/gps/GPS.cpp:72-85 | the in-place loop writes the Fletcher pair of the bytes from the class field on into the last two bytes and changes no other |
| `Ubx.Gps.MakeUBXPacket` | src/gps/GPS.cpp:110-128 | the scratch buffer starts with the frame of the payload and is unchanged behind it |
| `Ubx.FletcherIsSums` | src/gps/GPS.cpp:72-85 | the pair is the plain sum and the sum of running sums, modulo 256 |
| `Ubx.FrameFields` | src/gps/GPS.cpp:110-128 | a frame byte by byte: synchronisation, class, id, length low byte first, payload, and the sum and the sum of running sums of all from the class on |
| `Ubx.NeighboursDetected` | src/gps/GPS.cpp:72-85 | changing two neighbouring bytes in any way, a swap of unequal ones included, changes the Fletcher pair (section 3.4 of the u-blox M10 interface description) |
| `Ubx.SingleByteDetected` | src/gps/GPS.cpp:72-85 | changing any one byte changes the Fletcher pair |
| `UbxReceive.GetAckPayload` | src/gps/GPS.cpp:340-411 | for any bytes and pauses the matcher loop returns the length and leaves the payload that `Receive` finds; a short read of the payload starts the search again |
| `UbxReceive.FrameRoundTrip` | src/gps/GPS.cpp:340-411 | a frame built for a payload gives that payload back, after anything that leaves the matcher at the start and before anything else |
| `UbxReceive.FrameAfterNoise` | src/gps/GPS.cpp:340-411 | in particular after any bytes and pauses without a 0xB5 among them |
| `UbxReceive.FrameReceivedExactly` | src/gps/GPS.cpp:340-411 | a frame that comes last and has one 0xB5 is received, with a buffer of up to 25269 bytes, if and only if the matcher stands at the start before it |
| `UbxReceive.BrokenFrameIsRepeated` | src/gps/GPS.cpp:398-400 | a frame that breaks off inside its payload is given up after the pause, and received when it comes again |
| `UbxReceive.StrayHeaderByteLosesFrame` | src/gps/GPS.cpp:356-363 | counterexample: one stray 0xB5 before a frame makes the matcher miss it |
| `UbxReceive.ReceiveIsSound` | src/gps/GPS.cpp:340-411 | whatever the stream, a payload returned stands in it behind a header for the class, id and its own length |
| `UbxReceive.BuildAck` | src/gps/GPS.cpp:267-284 | the incrementally summed buffer is the frame that the packet builder makes for an acknowledgement |
| `UbxReceive.GetAckClassId` | src/gps/GPS.cpp:286-328 | the polling loop gives the answer of `Await` for any sequence of polls |
| `UbxReceive.AnswerIsJustified` | src/gps/GPS.cpp:286-328 | OK is said only when the last ten bytes read are the acknowledgement frame, NAK only after the start of a NAK frame, frame errors only after the whole complaint |
| `UbxReceive.FrameIsAccepted` | src/gps/GPS.cpp:286-328 | reading the acknowledgement frame from the start is answered OK |
| `UbxReceive.NakIsAnswered` | src/gps/GPS.cpp:310-321 | reading the first four bytes of a UBX-ACK-NAK from the start, with pauses, is answered NAK |
| `UbxReceive.ComplaintIsAnswered` | src/gps/GPS.cpp:294-306 | reading the module's whole complaint is answered as frame errors |
| `UbxReceive.StrayHeaderByteLosesAck` | src/gps/GPS.cpp:310-321 | counterexample: one stray 0xB5 before the acknowledgement makes the loop miss it |
| `AirTime.AirTime.Log` | src/airtime.cpp:12-32 | one log call changes the arrays as `LogAirtime` says and no other state |
| `AirTime.AirTime.AirtimeRotatePeriod` | src/airtime.cpp:49-73 | the descending loop shifts all slots by one and copies the shifted ones to the globals, when the hour changed |
| `AirTime.AirTime.Tick` | src/airtime.cpp:162-210 | one tick is `RunOnce` on the whole state |
| `AirTime.AirTime.UtilizationPercent` | src/airtime.cpp:113-121 | the loop adds the sixty buckets in 32 bits |
| `AirTime.AirTime.IsTxAllowedAirUtil` | src/airtime.cpp:134-145 | the gate answers what `TxAllowed` says of the state |
| `AirTimeModel.WindowLogs` | src/airtime.cpp:12-32 | logging into the current bucket keeps a rotating window equal to its log |
| `AirTimeModel.WindowAdvances` | src/airtime.cpp:196-207 | clearing the next bucket moves a window one period on, whatever the period width |
| `AirTimeModel.BucketsMirrorTheLog` | src/airtime.cpp:12-73 | over every interleaving of ticks and log calls after the first tick: six channel buckets, sixty TX buckets and eight hourly slots hold exactly the logged totals of their periods |
| `AirTimeModel.GlobalsMirrorExactly` | src/airtime.cpp:181-189 | the global arrays equal the hourly slots if and only if an hour has passed or what was logged before the first tick adds up to zero |
| `DutyCycle.GateSeesModulo` | src/airtime.cpp:113-121 | the sum the gate adds up is the total of the transmissions in the 60-minute window, modulo 2^32 |
| `DutyCycle.GateExactly` | src/airtime.cpp:134-145 | over every run, the gate is open if and only if there is an override, no limit, or the transmissions of the last sixty minutes, modulo 2^32, take less than half the duty cycle of an hour |
| `DutyCycle.DutyCycleHolds` | src/airtime.cpp:134-145 | with each transmission of at most L ms logged only right after the gate allowed it, the total of those logged since the first tick that lie in the 60-minute window stays below the limit plus L in every run |
| `DutyCycle.EverythingSent` | src/airtime.cpp:134-189 | the total of everything sent in the window stays below the limit plus L, plus in the first hour what was sent before the first tick, which is itself below the limit plus L |
| `DutyCycle.EarlyTransmissionsEscape` | src/airtime.cpp:181-189 | counterexample for every amount up to L sent before the first tick: the tick clears its bucket, and the gate then lets through as much as if nothing had been sent, past the limit plus L |
| `DutyCycle.EverythingWithinExactly` | src/airtime.cpp:134-189 | with the limit plus L within 2^32: everything sent keeps to the limit plus L in every run with at most e ms sent before the first tick, if and only if e is zero or the duty cycle is |
| `DutyCycle.DutyCycleHoldsExactly` | src/airtime.cpp:113-145 | what is sent after the first tick keeps to the limit plus L in every run if and only if the limit plus L is at most 2^32 |
| `DutyCycle.WrapDefeatsTheGate` | src/airtime.cpp:113-121 | counterexample: when limit plus L exceeds 2^32 the 32-bit sum wraps and the gate lets the total go past the bound |
| `EInk.EInkDynamicDisplay.CheckForPromotion` | src/graphics/EInkDynamicDisplay.cpp:211-230 | the flags become those of the frame joined with the promotion for the previous reason |
| `EInk.EInkDynamicDisplay.CheckBusyAsyncRefresh` | src/graphics/EInkDynamicDisplay.cpp:513-540 | a busy panel blocks the frame and records its strongest flag; a finished refresh is ended |
| `EInk.EInkDynamicDisplay.CheckRateLimiting` | src/graphics/EInkDynamicDisplay.cpp:233-261 | a frame is postponed just when its kind is rate-limited at this time |
| `EInk.EInkDynamicDisplay.DetermineMode` | src/graphics/EInkDynamicDisplay.cpp:143-190 | the sequence of checks decides as the single table `Decision` and moves counters and panel setting to match |
| `EInk.EInkDynamicDisplay.UpdateFrame` | src/graphics/EInkDynamicDisplay.cpp:96-108 | one update changes the whole object as `Update` says |
| `EInkModel.UndecidedExactly` | src/graphics/EInkDynamicDisplay.cpp:172-173 | no mode is decided if and only if the flags are BACKGROUND with BLOCKING alone, the panel is free, the image is new and the fast limit not reached |
| `EInkModel.EveryFrameIsDecided` | src/graphics/EInkDynamicDisplay.cpp:143-190 | in every run that adds BLOCKING only with COSMETIC or DEMAND_FAST, every frame is decided |
| `EInkModel.PendingJoins` | src/graphics/EInkDynamicDisplay.cpp:211-230 | the strength a frame is decided with is the stronger of its own and the one waiting |
| `EInkModel.PendingAfter` | src/graphics/EInkDynamicDisplay.cpp:382-395 | a postponed frame leaves its strongest request waiting, and any other leaves none |
| `EInkModel.PendingHonoured` | src/graphics/EInkDynamicDisplay.cpp:264-362 | the frame that gets through is FULL for a waiting COSMETIC request, FAST for a waiting DEMAND_FAST one unless it asks for COSMETIC itself, and for a waiting RESPONSIVE one FAST, SKIPPED with an unchanged image or FULL at the limit, unless its own flags are stronger |
| `EInkModel.StrongestRequestWaits` | src/graphics/EInkDynamicDisplay.cpp:211-230 | over any number of postponed frames in a row the strongest of all their requests is what waits |
| `EInkModel.StrongestRequestDecides` | src/graphics/EInkDynamicDisplay.cpp:143-362 | after any run of postponed frames the strongest of all their requests decides the first frame that gets through, together with that frame's own flags: FULL, FAST, or for RESPONSIVE what image and limit allow |
| `EInkModel.CosmeticRequestLost` | src/graphics/EInkDynamicDisplay.cpp:211-230 | counterexample to every request being honoured: a waiting COSMETIC request joined by a postponed DEMAND_FAST one is lost, and the frame that gets through is FAST |
| `EInkModel.FastRefreshesBounded` | src/graphics/EInkDynamicDisplay.cpp:321-333 | in every run the counter is the number of fast refreshes since the last full one, and at most the limit plus the demanded ones among them |
| `EInkModel.DueFramesAreSpaced` | src/graphics/EInkDynamicDisplay.cpp:233-261 | in every run without a clock overflow the waits of all due frames, the background limit for a BACKGROUND frame and the responsive one for a RESPONSIVE frame, add up to no more than the time from the first frame to the last due one |
| `EInkModel.DueExactly` | src/graphics/EInkDynamicDisplay.cpp:143-190 | and a frame is due if and only if it is the first, or no refresh is running on a busy panel and its wait since the last due frame is over |
| `EInkModel.LastDueIsRemembered` | src/graphics/EInkDynamicDisplay.cpp:364-395 | in every run the time and the image hash kept are those of the last due frame, so that no image is lost by being skipped |
| `EInkModel.FirstFrameIsShown` | src/graphics/EInkDynamicDisplay.cpp:192-208 | the first frame of every run is shown, fast unless it is COSMETIC |
| `EInkModel.PlainFrameRefreshes` | src/graphics/EInkDynamicDisplay.cpp:288-362 | a due BACKGROUND frame leaves a picture drawn by a full refresh, or where such frames are fast gets what a RESPONSIVE one would; it is skipped only with an unchanged image |
| `EInkModel.ConfiguredForLast` | src/graphics/EInkDynamicDisplay.cpp:70-83 | in every run the panel is configured for the mode of the last refresh |
| `EInkModel.RunningExactly` | src/graphics/EInkDynamicDisplay.cpp:110-141 | where full refreshes may run in the background: in every run one counts as running if and only if some frame began it without BLOCKING and every look at the panel since has found it busy |
| `FusionMath.Associative` | src/Fusion/FusionMath.h:366-379 | the quaternion product is associative |
| `FusionMath.ConjugateOfProduct` | src/Fusion/FusionMath.h:366-379 | the conjugate of a product is the product of the conjugates in reverse order |
| `FusionMath.NormMultiplies` | src/Fusion/FusionMath.h:366-379 | the squared norm of a product is the product of the squared norms |
| `FusionMath.MatrixRotates` | src/Fusion/FusionMath.h:457-480 | for a unit quaternion q the matrix applied to v is the vector q v q* |
| `FusionMath.ProductRotates` | src/Fusion/FusionMath.h:437-480 | the matrix of a product of unit quaternions applied to any vector is one matrix applied after the other |
| `FusionMath.ProductBecomesMatrixProduct` | src/Fusion/FusionMath.h:457-480 | the matrix of a product of unit quaternions is the product of their matrices |
| `FusionMath.MatrixIsOrthogonal` | src/Fusion/FusionMath.h:457-480 | the matrix of a unit quaternion times its transpose is the identity, on both sides |
| `FusionMath.TransposeUndoes` | src/Fusion/FusionMath.h:437-480 | the matrix takes back what its transpose did to any vector |
| `FusionMath.ConjugateIsTranspose` | src/Fusion/FusionMath.h:457-480 | the conjugate quaternion has the transposed matrix |
| `FusionMath.RotationKeepsDotProduct` | src/Fusion/FusionMath.h:437-480 | the matrix of a unit quaternion keeps dot products, hence lengths and angles |
| `FusionMath.RotationKeepsCrossProduct` | src/Fusion/FusionMath.h:437-480 | and cross products, hence handedness |
| `FusionMath.IntegrationNeverVanishes` | src/Fusion/FusionAhrs.c:226-232 | one integration step takes a unit quaternion to one of squared norm one plus that of the step, so normalising it never divides by zero |
| `FusionAhrs.DirectionsAreFixedToEarth` | src/Fusion/FusionAhrs.c:241-302 | in each convention the directions of gravity and of the magnetic field in the sensor frame, rotated to the Earth frame, are constants |
| `FusionAhrs.GravityRemovedInEarthFrame` | src/Fusion/FusionAhrs.c:446-478 | the expanded Earth acceleration is the rotated measurement with one unit of gravity removed |
| `FusionAhrs.EarthIsRotatedLinear` | src/Fusion/FusionAhrs.c:415-478 | for a unit quaternion, rotating the linear acceleration gives exactly the Earth acceleration, in all three conventions |
| `FusionAhrs.FusionAhrs.Reset` | src/Fusion/FusionAhrs.c:65-80 | both sensors start afresh with the timeout at the period |
| `FusionAhrs.FusionAhrs.Begin` | src/Fusion/FusionAhrs.c:124-145 | gyroscope overrange restarts all but the attitude; the gain ramp ends initialisation once, and with it the overrange flag |
| `FusionAhrs.FusionAhrs.Update` | src/Fusion/FusionAhrs.c:120-234 | an update compares both sensors with the attitude, observes them as `Observe` says, and turns the attitude by the gyroscope and the feedback of those used; a zero reading is never used, any other always during initialisation; a unit attitude stays one |
| `FusionAhrs.FusionAhrs.GetFlags` | src/Fusion/FusionAhrs.c:508-517 | a recovery flag is set exactly when the timeout is zero, for a nonzero period, and never for period zero |
| `FusionAlignment.ReferencesTurn` | src/Fusion/FusionAhrs.c:220-232 | an update turns both reference directions, as the sensor sees them, by exactly the rotation whose half angle is the gyroscope's plus the weighted feedback, over the time step |
| `FusionAlignment.FeedbackPulls` | src/Fusion/FusionAhrs.c:311-317 | feedback pulls the reference towards the measured direction: the pull is never negative, and zero only if they are parallel |
| `FusionAlignment.AccelerometerAligns` | src/Fusion/FusionAhrs.c:146-232 | an update without rotation brings the expected gravity closer to the measured direction if and only if the two are not parallel and the feedback is not so strong, gain times time step times their dot product at least one, that it turns the one past the other |
| `FusionAlignment.MagnetometerAligns` | src/Fusion/FusionAhrs.c:182-232 | the same of the magnetometer and the expected west |
| `FusionAlignment.MildFeedbackAligns` | src/Fusion/FusionAhrs.c:220-232 | with a measured direction of length one and gain times time step up to two, from every direction that is not parallel |
| `FusionAlignment.ReferencesAreHalf` | src/Fusion/FusionAhrs.c:241-302 | the expected directions have length one half |
| `FusionAlignment.TrueAttitudeIsAtRest` | src/Fusion/FusionAhrs.c:146-232 | in the attitude in which the accelerometer shows gravity's reaction and the magnetometer a field towards the north, at any inclination and in each convention, neither sensor gives feedback |
| `FusionRecovery.RunStaysSteady` | src/Fusion/FusionAhrs.c:150-175 | in every run the counters stay in range, and the timeout is the period, or zero with a positive trigger |
| `FusionRecovery.FlagShowsTimeout` | src/Fusion/FusionAhrs.c:508-517 | after any run, flag and zero timeout agree if and only if the period is at least 1 |
| `FusionRecovery.OutageIsBounded` | src/Fusion/FusionAhrs.c:150-175 | in any stretch of updates that all ignore the sensor, at most a period of nonzero readings occurs |
| `FusionRecovery.OutageReachesBound` | src/Fusion/FusionAhrs.c:150-175 | the bound is met: a period of disagreeing readings is ignored, and the next is used |
| `FusionRecovery.RecoveryUsesEveryReading` | src/Fusion/FusionAhrs.c:165-174 | once recovery has begun every nonzero reading is used until the trigger has fallen to zero, and recovery ends just then |
| `FusionRecovery.AgreeingReadingsRecover` | src/Fusion/FusionAhrs.c:159-175 | agreeing readings are always used, each takes nine from the trigger, and so many in a row end a recovery |
| `Tft.TFTDisplay.DrawRow` | src/graphics/TFTDisplay.cpp:687-698 | one row of the loop draws the row of `Redraw` and no other |
| `Tft.TFTDisplay.CopyToBack` | src/graphics/TFTDisplay.cpp:700-706 | the copy loop with its sixteen-bit position copies the first 65536 bytes and no others |
| `Tft.TFTDisplay.Display` | src/graphics/TFTDisplay.cpp:677-707 | a call changes panel and back buffer as one `Display` step |
| `TftModel.RedrawShowsBuffer` | src/graphics/TFTDisplay.cpp:686-699 | if the panel agrees with the back buffer, or from blank, the differential redraw gives the picture of a full redraw |
| `TftModel.PictureGivesBuffer` | src/graphics/TFTDisplay.cpp:687-698 | the picture of a full redraw holds the buffer: eight pixels one below the other are the bits of one byte, lowest on top, and each page of bytes is a band of the screen's width |
| `TftModel.RunKeepsAgreement` | src/graphics/TFTDisplay.cpp:677-707 | any run of buffer edits and displays keeps the panel equal to a full redraw of the back buffer |
| `TftModel.DisplaySettles` | src/graphics/TFTDisplay.cpp:677-707 | after any run that ends in a display, the panel is a full redraw of the buffer and the back buffer equals it |
| `TftModel.FlashStaysLit` | src/graphics/TFTDisplay.cpp:700-706 | counterexample: on a larger screen a byte past position 65535 that is set, shown and cleared stays lit |
| `TftModel.ShowsBufferExactly` | src/graphics/TFTDisplay.cpp:677-707 | every run ends with the panel showing the buffer, if and only if width times pages is at most 65536 |
| `Olc.Normalize` | src/gps/GeoCoord.cpp:265-282 | both loops terminate for every longitude, at the one value in [-180,180) a whole number of turns away; the latitude is clipped, and the pole moved inside its cell |
| `Olc.WriteGrid` | src/gps/GeoCoord.cpp:289-297 | the grid loop leaves the counts of 1/8000-degree cells |
| `Olc.WritePairs` | src/gps/GeoCoord.cpp:303-315 | the pair loop writes the whole eleven-character code, whatever stood there |
| `Olc.CodeNamesCell` | src/gps/GeoCoord.cpp:305-315 | the code of two cell counts decodes to the south-west corner of that cell |
| `Olc.CodeContainsPoint` | src/gps/GeoCoord.cpp:261-331 | the cell of the code contains the clipped and normalised point |
| `Olc.PointsAreKept` | src/gps/GeoCoord.cpp:265-282 | a point with latitude in [-90,90) and longitude in [-180,180) is left where it is, a latitude below is moved to the south pole and one above into the last cell before the north pole |
| `Olc.CodeContainsPointItself` | src/gps/GeoCoord.cpp:261-331 | so the cell of the code contains every such point itself |
| `Olc.OnlyOneCell` | src/gps/GeoCoord.cpp:305-315 | a code's cell contains the point if and only if it is the code of the point |
| `Olc.CodeIsOneToOne` | src/gps/GeoCoord.cpp:305-315 | two pairs of counts have the same code if and only if they are equal |
| `Olc.LatLongToOLC` | src/gps/GeoCoord.cpp:261-331 | for every latitude and longitude the result has eleven characters with + at index 8 and decodes to the cell that contains the point |
| `Battery.AnalogBatteryLevel.GetBatteryPercent` | src/Power.cpp:198-237 | unknown exactly below the no-battery voltage, else the truncated height of the curve |
| `Battery.AnalogBatteryLevel.StateOfCharge` | src/Power.cpp:222-235 | the table scan finds the segment of the voltage and interpolates in it |
| `Battery.LevelNeverFalls` | src/Power.cpp:224-235 | the curve never falls as the voltage rises, and rises strictly between the ends of the table |
| `Battery.LevelIsLinear` | src/Power.cpp:224-235 | from each entry of the table to the next, both included, the curve is the straight line between them |
| `Battery.PercentNeverFalls` | src/Power.cpp:198-237 | the percentage never falls as the voltage rises |
| `Battery.PercentAtEntry` | src/Power.cpp:229-231 | at table entry i of n the percentage is the truncated 100 (n-1-i) / (n-1) |
| `Battery.PercentInRange` | src/Power.cpp:236 | the percentage lies in 0..100, is 100 from the first entry up and 0 below the last |
| `Observing.Observer.Observe` | src/Observer.h:102-106 | both lists grow by one entry, and the world mirrors the longer run |
| `Observing.Observer.Unobserve` | src/Observer.h:96-100 | all entries go from both lists, and the world mirrors the longer run |
| `Observing.Observer.Destroy` | src/Observer.h:87-94 | the destroyed observer is gone from every list, duplicates included, and the world mirrors the longer run |
| `Observing.RemovedCounts` | src/Observer.h:84 | list removal takes out every occurrence of one element and keeps the count of all others |
| `Observing.RemovedInParts` | src/Observer.h:84 | it removes from the parts of a list separately, so the rest keeps its order |
| `Observing.RemovedFromOne` | src/Observer.h:84 | and from a list of one element takes just the one to be removed |
| `Observing.ListsAreDual` | src/Observer.h:87-106 | in every world a run has produced, an observer lists an observable as often as the observable lists it |
| `Observing.FreshWorldMirrors` | src/Observer.h:56-58 | objects as constructed mirror the empty run |
| `Observing.WatchersCountRegistrations` | src/Observer.h:78-106 | an observable lists an observer as often as it began to watch since it last stopped or was destroyed |
| `Observing.WatchedCountsRegistrations` | src/Observer.h:96-106 | the same count on the observer's side |
| `Observing.Observable.NotifyObservers` | src/Observer.h:66-76 | a prefix of the list is called in order, ending at the first nonzero answer, which is returned; zero means all were called |
| `Strnstr.Search` | src/meshUtils.cpp:40-59 | the search returns the first occurrence that ends within the limit and before a terminator, and the null pointer if and only if there is none |
| `Glyphs.FontTable.Lookup` | src/graphics/Screen.h:309-340 | one byte takes the two static variables and the result to `Next` and `Glyph` |
| `Glyphs.OneCharacter` | src/graphics/Screen.h:309-340 | one encoded character draws itself, nothing, or one mark, and leaves the decoder between characters |
| `Glyphs.TextIsReadable` | src/graphics/Screen.h:309-340 | for every text encoded in UTF-8 (section 3 of RFC 3629) the glyphs are its Latin-1 characters, with one mark for each run of others; a run that goes on from the text before is not marked again |

## Left out

- XmodemSession.TransferIsFaithful: stops when the receiver has handled EOT or CAN; the ACK of an EOT fed back into the sender, a second session after an aborted one (with `isEOT` and `retrans` left over) and a CAN from the phone during a send have laws for one packet in `XmodemReplies` but no run theorem.
- XmodemSender.SentAtMostExactly: counts the replies ACK and NAK of a fresh session, as the other control codes end it.
- XmodemSender.NakStep: the seek behind number 0, to a target before the file, fails; in files of 4 GB and more, which are not modelled, its 32-bit form would lie inside the file.
- Xmodem.XModemAdapter.HandlePacket: file names are byte sequences without the terminator convention of C strings; reads and writes of an open file do not fail or fall short; a seek outside the file leaves the position alone; on nRF52, where opening for writing appends, the model empties the file.
- Gpio.SetSources: all transformers are built before the first set, each virtual pin has at most one dependent, each output one driver, and there is no cycle; the constructors' assertions are preconditions, and a set on a driven pin is not covered.
- Saves.NamedFileSurvives: saves with fullAtomic and, on copying platforms, room for two copies; other files on the medium take no part.
- FileSteps.SaveIsCrashSafe: the copy stage fails for lack of room only; a medium that corrupts bytes during the copy is not modelled.
- FileSteps.OneWrongByteFailsTheSave: says nothing of two or more wrong bytes, which an XOR hash can miss.
- FileSteps.DeliversExactlyWhenItFits: where a write-open appends and fullAtomic is off, speaks of a close that finds no file under the name, as the constructor leaves it; removing that file in the constructor does not fail.
- FileSteps.CloseIsCrashSafe: fullAtomic only; without it the old file goes before the new one is written, and a crash in between leaves neither.
- Uf2Conv.ReadRecord: signs, blanks and underscores, which int() also takes, are refused here; they do not get past `is_hex` (bin/uf2conv.py:49-56, 352-353).
- Uf2Conv.ConvertFromHexToUf2: takes the lines that splitting at newlines gives; record checksums and lengths are not checked because the script does not check them.
- UbxReceive.FrameReceivedExactly: with a second 0xB5 in the frame, or more bytes behind it, the matcher may find another header, or this one late; for those FrameRoundTrip gives the one half.
- UbxReceive.GetAckPayload: the deadline is the end of the polls, at any point; a pause is one long enough for a read of several bytes to give up, shorter ones make no difference.
- AirTimeModel.BucketsMirrorTheLog: runs of fewer than 2^32 ticks, after which `secSinceBoot` wraps.
- DutyCycle.DutyCycleHolds: percentages over exact reals, and no rounding of the float sum.
- EInk.EInkDynamicDisplay.UpdateFrame: the clock is read once per update; the image hash is an input.
- EInkModel.FastRefreshesBounded: runs of fewer than 2^32 events, so that the counter does not wrap.
- FusionAhrs.FusionAhrs.Update: normalisation and square roots are parameters; settings stay fixed and the period is below 2^31 - 1.
- FusionAlignment.AccelerometerAligns: exact normalisation, to a positive multiple of the vector; the approximated inverse square root is not modelled. With rotation or both sensors at once, `ReferencesTurn` says where the references go but not whether they come closer.
- Olc.Normalize: exact reals; a double so large that adding 360 does not change it would loop in the original.
- Battery.AnalogBatteryLevel.GetBatteryPercent: the charging and RAK9154 variants behind compile-time switches are not modelled.
- Observing.Observable.NotifyObservers: callbacks leave the lists unchanged.
- Glyphs.TextIsReadable: the default-language path; the Polish, Ukrainian and Russian tables are not modelled.
- CASChecksum, makeCASPacket and getACKCas: the same framing pattern as UBX with a word-sum checksum.
- The text-matching getACK overload: a line buffer around the substring search.
- The low-voltage counter of readPowerStatus: a saturating counter.
- channelUtilizationPercent, isTxAllowedChannelUtil and getSilentMinutes: the same sums as the gate that is modelled.
- hashImage and ghost-pixel counting of the e-ink display: a hash that does not identify images, and an optional feature.
- FusionFastInverseSqrt, FusionAhrsSetHeading and trigonometric conversions: floating-point approximation is their point.
- PowerFSM, threads, semaphores, hardware set-up, drawing code and configuration: external libraries, or finite case tables.
