# Jornada GPIB: a verified model

The repository connects a Windows CE handheld with an SH-3 processor to laboratory instruments over
IEEE 488. This project models its hard parts in Dafny and proves what they promise:

- **Division** (`Words`, `Sh3`, `Division`): the processor with its T, Q and M bits and DIV1 as the SH-3
  programming manual defines it, and the two division helpers on top of it.
- **The bus controller** (`TntRegs`, `ChipModel`, `Deadlines`, `Tnt4882`, `Setup`, `Control`, `TransferOut`,
  `TransferIn`, `Addressing`, `Gpib488`): the polled driver of the TNT4882C, method by method, against a
  chip whose engine moves bytes between FIFO and bus. The number of bytes moved before each register
  access is arbitrary, so the results hold for any bus timing. `eager` stands for an engine that goes as
  far as it can at every access; there the calls also succeed, whatever the timeout, when the partner
  does its part.
- **A chip that may do anything** (`AnyChip`): the waiting loops once more, with arbitrary register values.
- **Calling conventions** (`Thunks`): the generator of the stack-copying thunks, and a machine with
  registers, memory, delay slots and arbitrary callees on which its output is executed.
- **Codecs and streams** (`Crc`, `PnpId`, `CisTuples`, `Gateway`, `Formatter`, `Responses`, `Blocks`,
  `Memory`): the card identifier and its CRC, the tuple capture, the line protocol of the TCP gateway with
  its client's escape, the bounded formatter, the response parsers, and the block moves.

Code that changes things step by step is modelled by classes and methods with loops; each such method is
tied to a specification function or predicate, and the lemmas are about those.

What the code does not do, although one might expect it to, is stated as an exact condition:

- `tnt_probe`, and with it `tnt_init`, fails if and only if the chip already is system controller: no reset
  clears that state, and the reset signature shows it (`Setup.TntProbe`, `Setup.TntInit`).
- A timeout of more than 2^31 ms is over at the first check (`Deadlines.NeverEarly`).
- A read that times out may leave bytes in the FIFO that came in after its last look. It has lost bytes if
  and only if the FIFO is not empty afterwards, and they are the bytes found there (`TransferIn.TntRead`).
  `TransferIn.LateByte` shows such a byte. The next read drops them and goes on behind them
  (`TransferIn.ReadInTurn`).
- The thunk generator's guard on the frame lets 18 to 31 argument words (35 for exports) through although
  the copies then have no encoding; its table bounds keep it at 16 (`Thunks.ImportEncodes`,
  `Thunks.ExportEncodes`).
- The comment in `include/gpib/pnpid.h` lets the CRC cover the whole VERS_1 body; the code cuts the first
  one behind its second NUL, so that the body is covered if and only if no byte follows that NUL
  (`PnpId.VersCutAtSecondNul`; `PnpId.OrdinaryBodyIsCut` is an input where one does). Long strings push the
  CRC out of the identifier (`PnpId.CrcSurvives`, `PnpId.LongNamesLoseTheCrc`).
- The length byte of a captured tuple wraps for bodies of more than 255 bytes (`CisTuples.CmdCis`).
- After `++quit` the lines that are still handled depend on how the network cuts the stream
  (`Gateway.ChunksDoNotMatter`), and an escaped text that begins with `++` is still taken for a command
  (`Gateway.DeliveredExactly`).
- Reading `%x` output from 2^31 up, or `%d` of the least int, with `parse_int` overflows an int and has no
  defined meaning in C (`Formatter.HexReadsBack`, `Formatter.DecimalReadsBack`).

## Model

| member | source | states |
|---|---|---|
| `Division.StepOnRemainder` | src/rt/divide.s:24-25 | one rotcl/div1 pair is a 33-bit signed double-and-add-or-subtract that keeps the remainder in [-d, d), for every divisor up to 2^32 - 1 |
| `Division.RotateOnProgress` | src/rt/divide.s:24 | the rotation takes the next dividend bit out at the top and the last quotient bit in at the bottom of the same register |
| `Division.StepOnProgress` | src/rt/divide.s:23-26 | the dividend prefix taken so far is divisor times signed-digit quotient plus remainder, and a step keeps that |
| `Division.Finish` | src/rt/divide.s:27-29 | after 32 steps the closing rotcl leaves the quotient |
| `Division.QuotientIsUnique` | src/rt/divide.s:23-29 | quotient and remainder are the only ones with remainder in [0, d) |
| `Division.Steps` | src/rt/divide.s:22-27 | the unrolled steps give the floor quotient for any dividend and non-zero divisor and change two registers |
| `Division.UDivSi3` | src/rt/divide.s:18-32 | r0 is the floor quotient, 0 for divisor 0; only r0, r1, r4 and status bits change |
| `Division.SplitSigns` | src/rt/divide.s:37-47 | magnitudes, also of -2^31, and the sign of the quotient |
| `Division.NegateIfNegative` | src/rt/divide.s:41-43 | cmp/pz, bt, neg |
| `Division.TruncationIsUnique` | src/rt/divide.s:36-66 | TruncatedQuotient is the only quotient whose remainder is smaller than the divisor and has the dividend's sign |
| `Division.QuotientFits` | src/rt/divide.s:36-66 | that quotient is a word for all pairs but -2^31 and -1 |
| `Division.SignedQuotient` | src/rt/divide.s:57-63 | the magnitude, negated if the signs differ, is the truncated quotient as a word |
| `Division.SDivSi3` | src/rt/divide.s:36-66 | r0 is the quotient truncated toward zero, wrapped for -2^31 / -1; r4, r5 and all but r0 to r3 are kept |
| `Division.UModSi3` | src/rt/crt.c:71-77 | n mod d over the machine's quotient, 0 for divisor 0 |
| `Division.ModSi3` | src/rt/crt.c:79-85 | the exact remainder with the dividend's sign, even where the quotient wraps |
| `Division.WrappedRemainder` | src/rt/crt.c:79-85 | n = q d + r modulo 2^32 gives the true remainder for every d but 0 |
| `Sh3.Cpu.Rotcl` | src/rt/divide.s:24 | rotate left through T |
| `Sh3.Cpu.Div1` | src/rt/divide.s:25 | DIV1 with the manual's cases on Q and M |
| `Sh3.Xor` | src/rt/divide.s:40 | bit 31 of the exclusive or tells whether the signs differ |
| `Memory.Memmove` | src/rt/crt.c:21-41 | the destination gets the old source bytes and nothing else changes, however the blocks overlap |
| `Memory.Memcpy` | src/rt/crt.c:11-19 | the upward copy, byte by byte |
| `Memory.MemcpyIsMemmove` | src/rt/crt.c:11-41 | memcpy does memmove's work for all contents if and only if the destination does not begin inside the source behind its first byte |
| `Deadlines.TicksElapsed` | src/gpib/tnt4882.c:51-57 | the tick difference depends on elapsed time only, wherever the counter wraps |
| `Deadlines.ExpiresExactly` | src/gpib/tnt4882.c:51-62 | the signed test fires if and only if the timeout has elapsed, while elapsed time stays under timeout + 2^31 |
| `Deadlines.CheckArmed` | src/gpib/tnt4882.c:59-62 | the same for the checks that the polling loops make |
| `Deadlines.NeverEarly` | src/gpib/tnt4882.c:59-62 | it never fires early if and only if the timeout is at most 2^31 ms |
| `ChipModel.SimTnt.Reset` | tests/host/sim_tnt4882.c:38-47 | reset values in every register, an absent instrument at address 5 |
| `ChipModel.MoveMakesProgress` | tests/host/sim_tnt4882.c:179-266 | a turn of the engine's loop changes nothing or brings it nearer to its end, so the loop terminates |
| `ChipModel.DryStays` | tests/host/sim_tnt4882.c:179-266 | an engine that cannot move a byte stays as it is |
| `ChipModel.SimTnt.Engine` | tests/host/sim_tnt4882.c:179-266 | the loop is some number of single moves, all that are possible if eager |
| `ChipModel.SimTnt.Read8` | tests/host/sim_tnt4882.c:362-402 | engine, the value of a view of the state or of a stored register, then read-to-clear or FIFO pop |
| `ChipModel.SimTnt.Write8` | tests/host/sim_tnt4882.c:404-444 | register effects, stored registers included, with the engine before them |
| `ChipModel.SimTnt.DelayUs` | tests/host/sim_tnt4882.c:446-450 | time passes and the bus may go on |
| `ChipModel.SimTnt.NowMs` | tests/host/sim_tnt4882.c:452-456 | 32-bit milliseconds of a clock that never wraps |
| `ChipModel.SimTnt.Yield` | tests/host/sim_tnt4882.c:458-463 | between 1 and 2^31 - 1 ms pass and the bus may go on |
| `Tnt4882.TntChip.constructor` | src/gpib/tnt4882.c:104-120 | defaults of a chip object, its shadows included |
| `Tnt4882.Auxmr` | src/gpib/tnt4882.c:27-31 | an AUXMR write decodes as one hidden register or command, after whatever the bus did meanwhile |
| `Tnt4882.Cmdr` | src/gpib/tnt4882.c:33-37 | a command-register write, with the bus going on before and after |
| `Tnt4882.PollStatus` | src/gpib/tnt4882.c:40-44 | status bits read away from the chip are all kept in the driver, for both registers |
| `Tnt4882.DeadlineStart` | src/gpib/tnt4882.c:51-57 | a deadline armed at the real time |
| `Tnt4882.DeadlineExpired` | src/gpib/tnt4882.c:59-62 | never fires without a timeout; otherwise if and only if the timeout has elapsed in real time or exceeds 2^31 ms |
| `Tnt4882.LoadCount` | src/gpib/tnt4882.c:64-71 | four byte writes leave -n in the 32-bit up-counter, whatever was there and whatever mode it was in |
| `Tnt4882.RemainingCount` | src/gpib/tnt4882.c:73-78 | four byte reads give back how many of the loaded count are left |
| `Words.FourBytes` | src/gpib/tnt4882.c:64-71 | writing the bytes of a word, lowest first, over any word leaves it |
| `Tnt4882.Configure` | src/gpib/tnt4882.c:358-367 | FIFO emptied, direction set, counter loaded, pending status moved to the driver |
| `Tnt4882.Stop` | src/gpib/tnt4882.c:400 | STOP freezes the transfer after whatever was still moving |
| `Setup.ResetSequence` | src/gpib/tnt4882.c:124-144 | reset values in both halves of the chip from any state; only the system-controller, REN and IFC states survive |
| `Setup.Signature` | src/gpib/tnt4882.c:146-159 | the reset signature shows if and only if the chip is not system controller |
| `Setup.TntProbe` | src/gpib/tnt4882.c:146-159 | succeeds if and only if the chip was not already system controller, and reports the registers as they are after the reset |
| `Setup.HiddenDecodes` | src/gpib/tnt4882.c:80-84 | a value with a register's selector reaches that hidden register and nothing else |
| `Setup.MaskedBits` | src/gpib/tnt4882.c:179-196 | masked updates keep the selector and all bits outside the mask |
| `Setup.TntSetAddress` | src/gpib/tnt4882.c:161-177 | primary address, second address register (0xE0, or 0x80 with the secondary address) and address mode 1 or 2 set, or EINVAL and nothing changed |
| `Setup.TntSetT1` | src/gpib/tnt4882.c:179-196 | TRI, USTD and MSTD follow the settling time; shadows still equal the chip's hidden registers |
| `Setup.TntSetEos` | src/gpib/tnt4882.c:198-215 | afterwards a byte matches EOS exactly as the flags and the EOS character say; the other bits of AUXRA and the shadows are kept |
| `Setup.HiddenAreShelved` | src/gpib/tnt4882.c:229-246 | of the values that tnt_init writes through AUXMR, three are stored: the parallel-poll register, AUXRE and going on line |
| `Setup.GoOnline` | src/gpib/tnt4882.c:245-251 | on line, TRI, USTD and MSTD as the settling time says, and system controller |
| `Setup.TntInit` | src/gpib/tnt4882.c:222-252 | OK if and only if the chip was not system controller and pad is at most 30; then the chip is on line with every register as set, the settling bits those of t1_ns, shadows and chip agree, the talker is held off, nothing is addressed and we are system controller |
| `Control.TntIsCic` | src/gpib/tnt4882.c:276-279 | reads the controller-in-charge state |
| `Control.WaitAtn` | src/gpib/tnt4882.c:301-323 | terminates; OK if and only if ATN is as wanted, and a timeout only after the timeout has elapsed; with no timeout, OK if ATN is as wanted |
| `Control.TntTakeControl` | src/gpib/tnt4882.c:325-332 | ATN asserted if and only if we are in charge; nothing else changes, and whatever the timeout there is no wait |
| `Control.TntGoToStandby` | src/gpib/tnt4882.c:334-341 | ATN released if and only if we are in charge; nothing else changes, and whatever the timeout there is no wait |
| `Control.TntInterfaceClear` | src/gpib/tnt4882.c:281-290 | ENOTSC and no change, or IFC held for at least 200 microseconds and then in charge with ATN asserted and nobody addressed |
| `Control.Pulse` | src/gpib/tnt4882.c:286-288 | IFC is asserted, held and released |
| `Control.TntRemoteEnable` | src/gpib/tnt4882.c:292-299 | REN follows, if we are system controller |
| `Control.TntShutdown` | src/gpib/tnt4882.c:254-264 | gives up the system-controller state and goes off line with all interrupts masked, so that the chip can be initialised again |
| `Control.TntCommand` | src/gpib/tnt4882.c:407-421 | on any outcome the instrument and we have acted on exactly the first `sent` command bytes under ATN |
| `Control.TntWrite` | src/gpib/tnt4882.c:423-426 | the instrument got exactly the first `sent` bytes in order, EOI on the last byte of the buffer only and only if asked for; a timeout only when it has passed since the last byte went into the FIFO |
| `TransferOut.SendingMove` | src/gpib/tnt4882.c:343-405 | every move of the engine keeps the transfer invariant: FIFO, counter, instrument, ERR and halt agree on the bytes accepted |
| `TransferOut.DrySending` | tests/host/sim_tnt4882.c:184-229 | where we may send, an engine that has run dry has emptied the FIFO or halted for want of a listener, and then ERR is pending |
| `TransferOut.Fill` | src/gpib/tnt4882.c:370-387 | no byte is dropped or doubled on the way into the FIFO; the deadline counts from the last byte written; terminates by (bytes left, time to deadline) |
| `TransferOut.AwaitDone` | src/gpib/tnt4882.c:388-399 | OK if everything has been accepted, ENOLISTENER only if nobody accepts, and no timeout on an eager engine that may send |
| `TransferOut.Finish` | src/gpib/tnt4882.c:400-404 | the counter tells the accepted bytes exactly, and the fallback to the bytes queued is unreachable |
| `TransferOut.TntTransferOut` | src/gpib/tnt4882.c:343-405 | `sent` is exactly what was accepted on every outcome, those bytes are the buffer's prefix, OK means all of it, ENOLISTENER means none, and ETIMEOUT that the timeout has passed since the last byte went into the FIFO; on an eager engine that may send, OK if and only if the instrument takes part |
| `TransferOut.HeardData` | tests/host/sim_tnt4882.c:202-219 | what k accepted data bytes leave in the instrument's log, with the EOI flags |
| `TransferOut.HeardCommands` | tests/host/sim_tnt4882.c:192-200 | command bytes touch no data |
| `TransferIn.ReceivingMove` | tests/host/sim_tnt4882.c:231-265 | every move keeps the receive invariant: FIFO, counter, talker, END and holdoff agree, and after an END or a full count nothing more comes in |
| `TransferIn.DryReceiving` | tests/host/sim_tnt4882.c:231-265 | a talker that had enough to say and has fallen silent has ended its message |
| `TransferIn.SetHandshakeMode` | src/gpib/tnt4882.c:80-84 | the holdoff mode changes, selector, EOS bits and shadows do not |
| `TransferIn.ReleaseHoldoff` | src/gpib/tnt4882.c:88-102 | in all three cases the talker is released and the chip left to hold off on END only |
| `TransferIn.DrainFifo` | src/gpib/tnt4882.c:428-434 | everything received so far reaches the buffer in order, up to cap |
| `TransferIn.CollectLoop` | src/gpib/tnt4882.c:457-476 | the polling loop by itself, with its deadline anew after every byte |
| `TransferIn.Collect` | src/gpib/tnt4882.c:457-482 | ends with a message end or a full buffer, and `end` is right even if END arrives with the last byte; a timeout only when the timeout has passed since the last byte was read out, or since the start if none was; terminates |
| `TransferIn.TntRead` | src/gpib/tnt4882.c:436-490 | the buffer gets the talker's next bytes up to the first END byte or cap; `end` if and only if the last one ended a message; a timed-out call gives a prefix, has waited the whole timeout since its last byte, and what it lost is what the FIFO then holds; every read leaves the talker held off; on an eager engine it succeeds if the talker has cap bytes or an END byte |
| `TransferIn.LateByte` | src/gpib/tnt4882.c:471-488 | a byte that comes in with STOP is in the FIFO, will not be sent again, and was not seen |
| `TransferIn.NothingLost` | src/gpib/tnt4882.c:436-490 | reads that lose nothing join to the stream, each byte once and in order |
| `TransferIn.Continues` | src/gpib/tnt4882.c:436-490 | a read goes on where the reads before it stopped, behind what they left in the FIFO |
| `TransferIn.ReadInTurn` | src/gpib/tnt4882.c:436-490 | over any sequence of reads of any sizes, timeouts included, every byte sent was returned once and in order or left in the FIFO by a read that timed out; if all succeed, what they return is what was sent |
| `AnyChip.AnyDriver.DeadlineExpired` | src/gpib/tnt4882.c:59-62 | the deadline test, whatever the chip does |
| `AnyChip.AnyDriver.WaitAtn` | src/gpib/tnt4882.c:301-323 | terminates for arbitrary register values, and gives up only after the timeout |
| `AnyChip.AnyDriver.Fill` | src/gpib/tnt4882.c:370-387 | the same for the loop that fills the FIFO, counted from the last byte written |
| `AnyChip.AnyDriver.AwaitDone` | src/gpib/tnt4882.c:388-399 | the same for the wait for DONE, on the same deadline |
| `AnyChip.AnyDriver.TransferOut` | src/gpib/tnt4882.c:369-405 | whatever the chip says, no more is reported as sent than there was, and a timeout counts from the last byte written |
| `AnyChip.AnyDriver.DrainFifo` | src/gpib/tnt4882.c:428-434 | writes only from n to what it returns, never past cap |
| `AnyChip.AnyDriver.Collect` | src/gpib/tnt4882.c:457-482 | terminates for arbitrary register values, stays inside cap, and gives up only when the timeout has passed since the last byte read |
| `Addressing.OneTalkerStep` | tests/host/sim_tnt4882.c:105-156 | a command byte on a bus of any size with distinct addresses never makes a second talker |
| `Addressing.NeverTwoTalkers` | tests/host/sim_tnt4882.c:105-156 | nor does any sequence of command bytes |
| `Addressing.PadEncodes` | src/gpib/gpib488.c:18-22 | a valid primary address never encodes as UNL or UNT, and decodes to itself |
| `Addressing.AddressBytes` | include/gpib/gpib488.h:25-27 | listen, talk and secondary addresses are 0x20, 0x40 and 0x60 plus the address, and a secondary address is never 0x7F |
| `Addressing.AddressRanges` | tests/host/sim_tnt4882.c:105-156 | which bytes a party takes for a listen or talk address, and whose |
| `Addressing.PrefixBytes` | src/gpib/gpib488.c:14-27 | every byte of the prefix: 0x3F, the device, its secondary address if any, us, our own secondary address if any |
| `Addressing.PollBytesAre` | src/gpib/gpib488.c:157-179 | every byte of a serial poll: 0x3F, us, 0x18, the device, its secondary address if any; and behind the status byte 0x19, 0x5F |
| `Addressing.CommandBytesAre` | src/gpib/gpib488.c:110-115 | every byte of an addressed command |
| `Addressing.PrefixOnDevice` | src/gpib/gpib488.c:14-27 | the addressing prefix as one instrument sees it, from any mode |
| `Addressing.PrefixOnUs` | src/gpib/gpib488.c:14-27 | and as we see it |
| `Addressing.PrefixAddresses` | src/gpib/gpib488.c:14-27 | after the prefix the talker and the only listener are the device and we in the direction asked for, whatever came before |
| `Addressing.BusByParty` | tests/host/sim_tnt4882.c:105-156 | a command sequence acts on every party independently |
| `Addressing.PollPrefixOnDevice` | src/gpib/gpib488.c:157-163 | after the poll prefix only the polled instrument talks, and it has its status byte to give |
| `Addressing.PollAddresses` | src/gpib/gpib488.c:157-163 | on a bus of any size, from any state, exactly the polled instrument talks with its status byte to give, and we alone listen |
| `Addressing.PollTailOnDevice` | src/gpib/gpib488.c:177-179 | SPD and UNT end serial-poll mode and the talker state |
| `Addressing.PollLeavesBusQuiet` | src/gpib/gpib488.c:177-179 | no instrument of any bus is left in serial-poll mode or addressed to talk |
| `Addressing.CommandReachesOne` | src/gpib/gpib488.c:103-117 | SDC, GET and GTL reach the addressed instrument and no other |
| `Gpib488.GpibBuildAddress` | src/gpib/gpib488.c:14-27 | builds that prefix, byte by byte: the third carries the secondary address, the last our own |
| `Gpib488.GpibSendCommands` | src/gpib/gpib488.c:44-52 | commands act in order on instrument and controller, all of them on success; data streams are untouched |
| `Gpib488.AddressDevice` | src/gpib/gpib488.c:54-63 | success means that the bus saw exactly that prefix, and that we and the instrument are talker and listener as our addresses say; a controller in charge asserts ATN whatever the outcome |
| `Gpib488.GpibWrite` | src/gpib/gpib488.c:65-82 | success means that the bus saw the prefix and the instrument at the address got the whole buffer; `sent` is exact on every outcome; a controller in charge asserts ATN again; on an eager engine it succeeds for an instrument at the address |
| `Gpib488.GpibRead` | src/gpib/gpib488.c:84-101 | the next stretch of what the addressed instrument has to say, up to a message end or cap, and on success the bus saw the prefix; a controller in charge asserts ATN again; on an eager engine it succeeds if there is enough to read |
| `Gpib488.ReadAddressed` | src/gpib/gpib488.c:93-100 | standby, the read and ATN again, in terms of what the talker offers |
| `Gpib488.GpibAddressedCommand` | src/gpib/gpib488.c:103-117 | the instrument obeys if and only if it is the one at the address; on success the bus saw exactly UNL, the address and the command |
| `Gpib488.GpibClear` | src/gpib/gpib488.c:119-126 | one instrument is cleared, or every one for a negative address, and with which bytes |
| `Gpib488.ReadMessage` | src/gpibsrv/gpibsrv.c:102-125 | the gateway's read loop collects exactly the next message, however the reads cut it, and terminates; on an eager engine it succeeds if the stream holds a message end |
| `Gpib488.ReadStatus` | src/gpib/gpib488.c:165-173 | the read of the status byte: the data stream is untouched |
| `Gpib488.PollOnce` | src/gpib/gpib488.c:153-173 | the status byte of the polled instrument, with its data stream untouched, and the bytes that were sent for it |
| `Gpib488.GpibSerialPoll` | src/gpib/gpib488.c:144-183 | from any addressing state: the status byte, nothing consumed from the data stream, the command bytes of a poll and no others, ATN asserted again, serial-poll mode left and the talker unaddressed, the last two on an eager engine even if the poll fails |
| `Thunks.LoadStore` | tools/gen_thunks.py:84-100 | the instructions of one word copy |
| `Thunks.LoadStoreRuns` | tools/gen_thunks.py:84-100 | they copy one stack word and touch only r0, r1 and the target, also beyond the reach of a displacement |
| `Thunks.CopyRuns` | tools/gen_thunks.py:117-120 | copies never overwrite an argument that is still to be read |
| `Thunks.ImportThunk` | tools/gen_thunks.py:104-135 | the generator with its guard |
| `Thunks.ImportThunkCorrect` | tools/gen_thunks.py:104-135 | the Microsoft callee sees every argument in its place, the memory of the caller as it was, and a home area inside the frame; it may write all of memory but the saved return address, and SP, PR and saved registers are restored, r0 and memory are what it left |
| `Thunks.ExportThunk` | tools/gen_thunks.py:138-182 | the generator with its guard |
| `Thunks.ExportThunkCorrect` | tools/gen_thunks.py:138-182 | the same for a GCC callee; without stack words a jump that leaves everything but r0 alone |
| `Thunks.CallThunk` | tools/gen_thunks.py:188-222 | the generator with its guard of ten arguments |
| `Thunks.CallThunkCorrect` | tools/gen_thunks.py:188-222 | fn becomes the target and a1..an the Microsoft arguments, none clobbered by the shuffle |
| `Thunks.ShuffleRuns` | tools/gen_thunks.py:210-212 | r4..r7 move down by one and a4 comes from the stack |
| `Thunks.ImportEncodes` | tools/gen_thunks.py:104-120 | every displacement and immediate has an encoding if and only if there are at most 17 argument words |
| `Thunks.ExportEncodes` | tools/gen_thunks.py:138-168 | the same bound for export thunks |
| `Thunks.CallEncodes` | tools/gen_thunks.py:188-212 | for call thunks, at most 14 |
| `Crc.CrcTableEntry` | src/gpib/pnpid.c:19-27 | eight bit-serial shifts |
| `Crc.BitsAreLinear` | src/gpib/pnpid.c:19-27 | the table entry is linear over exclusive or |
| `Crc.HighByteShiftsDown` | src/gpib/pnpid.c:37 | the high byte of the CRC is only shifted down |
| `Crc.PnpidCrc16` | src/gpib/pnpid.c:29-40 | the loop over the bytes |
| `Crc.TableStepIsArcStep` | src/gpib/pnpid.c:32-37 | a nibble-table step is the bit-serial step with polynomial 0xA001, with bit 0x0200 flipped if and only if the index byte is 0xF0 or more |
| `Crc.WrongEntryShows` | src/gpib/pnpid.c:34-37 | the byte 0xF1 gives 0x86C1 where CRC-16/ARC gives 0x84C1 |
| `Crc.AgreesUnlessTypo` | src/gpib/pnpid.c:29-40 | all prefixes have their CRC-16/ARC if and only if the wrong entry is never met |
| `Crc.CrcConcat` | src/gpib/pnpid.c:29-40 | feeding a then b is feeding a + b |
| `PnpId.CopyFiltered` | src/gpib/pnpid.c:50-68 | the bounded filter-map of a field, printable and without commas, and how much was consumed |
| `PnpId.FilteredByCharacter` | src/gpib/pnpid.c:54-63 | blanks and commas become underscores, control bytes and bytes from 0x7F up go, every other character stays |
| `PnpId.FieldsOfVers1` | src/gpib/pnpid.c:70-87 | manufacturer and product are the filtered first two fields behind the version bytes, cut to 115 and 64 characters, and the CRC goes up to the second NUL |
| `PnpId.EntersCrc` | src/gpib/pnpid.c:89-108 | tuples 0x01, 0x1A, 0x1B and 0x20 enter the CRC whole, the first long 0x15 up to its cut, later ones whole, no others |
| `PnpId.VersCutAtSecondNul` | src/gpib/pnpid.c:70-85 | the CRC of the first VERS_1 stops behind its second NUL, and covers the whole body if and only if no byte follows that NUL |
| `PnpId.OrdinaryBodyIsCut` | src/gpib/pnpid.c:70-85 | a body with two NULs and a closing 0xFF is cut before that byte |
| `PnpId.PnpidBuilder.constructor` | src/gpib/pnpid.c:42-48 | an empty builder |
| `PnpId.PnpidBuilder.AddVers1` | src/gpib/pnpid.c:70-87 | strings and CRC of the first VERS_1; short ones before it are skipped |
| `PnpId.PnpidBuilder.AddTuple` | src/gpib/pnpid.c:89-108 | one tuple's contribution |
| `PnpId.Gather` | src/gpib/cis.c:96-119 | over any tuple chain the CRC is that of the selected bodies of the tuples visited, joined in order, and the strings are those of the first VERS_1 among them with more than 4 bytes |
| `PnpId.VisitedUpTo` | src/gpib/cis.c:96-119 | the walk visits the tuples up to CISTPL_END, at most 64 |
| `PnpId.Append` | src/gpib/pnpid.c:110-116 | as much of the string as leaves room for the NUL |
| `PnpId.PnpidFinish` | src/gpib/pnpid.c:118-144 | the first cap - 1 characters of the identifier, a NUL, and nothing else; nothing at all below 8 bytes |
| `PnpId.IdentifierText` | src/gpib/pnpid.c:118-144 | the characters of the identifier: manufacturer, dash and product, or UNKNOWN_MANUFACTURER, a dash, four upper-case hexadecimal digits |
| `PnpId.HexReadsBack` | src/gpib/pnpid.c:126-129 | the four hex digits read back as the CRC |
| `PnpId.CrcSurvives` | src/gpib/pnpid.c:118-144 | the text is whole if and only if the name leaves room for six characters, and then ends in '-' and the CRC |
| `PnpId.LongNamesLoseTheCrc` | src/gpib/pnpid.c:118-144 | with both strings at their limits the identifier is cut before the CRC |
| `CisTuples.CisCapture.CaptureRaw` | src/gpib/cis.c:70-79 | a tuple is appended whole, as its code, its length in one byte and its body, or not at all |
| `CisTuples.CisCapture.CaptureAll` | src/gpib/cis.c:96-119 | the buffer holds exactly the tuples visited that fitted, in order |
| `CisTuples.KeptExactly` | src/gpib/cis.c:70-79 | no tuple is left out if and only if all of them together fit 1024 bytes, which are never overrun |
| `CisTuples.WalkRaw` | src/gpibtest/gpibtest.c:188-197 | the reader's loop finds what the layout says and stays inside raw_len |
| `CisTuples.RecoversExactly` | src/gpibtest/gpibtest.c:188-197 | reading recovers the tuples if and only if every body has at most 255 bytes |
| `CisTuples.CmdCis` | src/gpibtest/gpibtest.c:175-198 | capture and reader together: the tuples held are found if and only if their bodies are short, and then raw_len is consumed exactly |
| `Gateway.LinesConcat` | src/gpibsrv/gpibsrv.c:364-381 | the byte loop may be cut anywhere |
| `Gateway.PlainFeeds` | src/gpibsrv/gpibsrv.c:364-381 | bytes other than ESC, LF and CR complete no line and are stored as they are, up to 1024 |
| `Gateway.EitherByteEndsALine` | src/gpibsrv/gpibsrv.c:373-377 | LF and CR alike end a line, with its first 1024 bytes handled, and an empty line is not handled, so that CR LF ends one line |
| `Gateway.EscapedByteIsStored` | src/gpibsrv/gpibsrv.c:366-372 | behind ESC any byte is stored, and ESC is not |
| `Gateway.Server.HandleLine` | src/gpibsrv/gpibsrv.c:315-326 | a line is counted and goes to the command handler if it begins with "++", else to do_write, or nowhere if empty; ++quit, alone or before a blank or a NUL, asks the server to stop |
| `Gateway.Server.Chunk` | src/gpibsrv/gpibsrv.c:364-381 | one received buffer: the lines handled and the state left are those of its bytes |
| `Gateway.Server.ServeClient` | src/gpibsrv/gpibsrv.c:328-386 | the lines handled for a whole connection, also if the server had been asked to stop before |
| `Gateway.ServedIsCut` | src/gpibsrv/gpibsrv.c:343-385 | whatever the chunks, the lines of the stream up to its end or to less than 256 bytes behind the first quit line |
| `Gateway.ChunksDoNotMatter` | src/gpibsrv/gpibsrv.c:343-385 | the lines handled are independent of chunk boundaries if and only if no line ends within 255 bytes behind the first quit line |
| `Gateway.WithoutQuit` | src/gpibsrv/gpibsrv.c:343-385 | without a quit line every chunking gives the lines of the stream |
| `Gateway.EscapeFeeds` | tools/tds340.py:120-122 | an escaped text completes no line and is stored byte for byte, up to 1024 |
| `Gateway.EscapeMarks` | tools/tds340.py:120-122 | CR, LF, ESC and the plus sign are escaped, each by itself, and no other byte |
| `Gateway.WireReadsBack` | tools/tds340.py:120-125 | escaped texts with LF behind each come back as lines, in order; empty ones vanish and long ones are cut |
| `Gateway.DeliveredExactly` | tools/tds340.py:120-125 | the lines of the wire hand a list of texts to do_write unchanged if and only if each has 1 to 1024 bytes and none begins with "++" |
| `Gateway.WireDelivered` | src/gpibsrv/gpibsrv.c:343-385 | the same for what serve_client hands over, however the network cuts the wire |
| `Gateway.WriteBuffer` | src/gpibsrv/gpibsrv.c:127-145 | the text, cut at 1024, with CR LF, CR, LF or nothing behind it for eos 0, 1, 2 and above, never past the buffer; a query if it ends in '?' |
| `Formatter.DigitsFit` | src/rt/fmt.c:61 | no 32-bit value has more than ten digits |
| `Formatter.Digits` | src/rt/fmt.c:47-56 | the digits, last first, inside the twelve-byte buffer |
| `Formatter.Sink.Put` | src/rt/fmt.c:14-24 | one more character of the text, stored if it fits |
| `Formatter.Sink.Finish` | src/rt/fmt.c:26-37 | the NUL goes where the text was cut |
| `Formatter.Sink.EmitNumber` | src/rt/fmt.c:58-80 | sign, padding and digits in the right order |
| `Formatter.Sink.EmitText` | src/rt/fmt.c:82-121 | strings with padding, "(null)" for NULL |
| `Formatter.ReadDirective` | src/rt/fmt.c:134-156 | flags, width, the ignored 'l' and the conversion, or the end of the format |
| `Formatter.Produce` | src/rt/fmt.c:123-199 | the text produced is the whole rendering, whatever the buffer |
| `Formatter.Format` | src/rt/fmt.c:201-221 | the first min(L, cap - 1) characters and a NUL, nothing beyond, and L returned; an 8-bit buffer gets a question mark for every character from 0x80 up |
| `Formatter.DigitsReadBack` | src/rt/fmt.c:47-56 | digits in base 10 and 16 denote their value |
| `Formatter.DigitAppended` | src/gpibtest/gpibtest.c:66-80 | what one more character makes of a number, in base 10 and 16, in either case |
| `Formatter.DirectiveRead` | src/rt/fmt.c:134-156 | minus signs and zeros in any order, a decimal width, an l without meaning, the conversion; a format that ends before it has none |
| `Formatter.NumberConverted` | src/rt/fmt.c:157-173 | %d, %i, %u, %x and %X with any flags and width: a minus sign for negative %d and %i, digits of the right case without leading zeros that read back as the magnitude, and what the width is missing as blanks in front, blanks behind, or zeros between sign and digits |
| `Formatter.PointerConverted` | src/rt/fmt.c:174-178 | %p is 0x and eight digits that read back, whatever the flags |
| `Formatter.TextConverted` | src/rt/fmt.c:182-187 | %s and %S: the string unbroken, (null) for NULL, with the missing width as blanks on one side |
| `Formatter.CharacterConverted` | src/rt/fmt.c:179-181 | %c: one character, without padding |
| `Formatter.OthersCopied` | src/rt/fmt.c:128-194 | characters outside directives are copied, %% gives a percent sign, an unknown conversion itself with its percent sign, and no argument is used up; a directive without a conversion ends the text |
| `Formatter.ParseInt` | src/gpibtest/gpibtest.c:58-85 | the number that a text denotes, none, or an overflow that C does not define |
| `Formatter.DecimalReadsBack` | src/gpibtest/gpibtest.c:58-85 | %d and %i output reads back as the same value, without an overflow, if and only if it is not -2^31 |
| `Formatter.HexReadsBack` | src/gpibtest/gpibtest.c:58-85 | %x and %X output reads back, without an overflow, if and only if the value is below 2^31 |
| `Responses.SplitOutsideQuotes` | tools/tds340.py:43-54 | the loop computes SplitFrom |
| `Responses.JoinRestores` | tools/tds340.py:43-54 | joining the fields restores any text |
| `Responses.SplitRestores` | tools/tds340.py:43-54 | for any separator but the quote, splitting a joined list restores it if and only if no separator stands outside quotes and only the last field may leave a quote open |
| `Responses.ParseHeadered` | tools/tds340.py:57-75 | the loop computes ParseItems over the fields |
| `Responses.CaseDoesNotMatter` | tools/tds340.py:69 | a header means the same in either case |
| `Responses.BlanksDoNotMatter` | tools/tds340.py:64-65 | white space around an item or a response does not matter |
| `Responses.ItemBlanks` | tools/tds340.py:65-74 | nor does more white space between a header and its value |
| `Responses.NamelessIsIgnored` | tools/tds340.py:66-71 | empty items and headers of colons alone are ignored |
| `Responses.DoubledColon` | tools/tds340.py:69 | doubled colons count once |
| `Responses.PrintedParsesBack` | tools/tds340.py:57-75 | headers printed in full, or relative where the parent path repeats, parse back to the same table, with quoted semicolons in the values |
| `Blocks.HeaderDecides` | tools/tds340.py:83-95 | a definite-length header decides: exactly the announced number of bytes, or the block is refused as truncated |
| `Blocks.BlockReadsBack` | tools/tds340.py:83-95 | every payload whose length has 1 to 9 digits comes back, with any text free of '#' before the block and anything behind it |
| `Blocks.HeaderIsMissing` | tools/tds340.py:85-87 | data without a header, or that ends with its first byte, is refused |
| `Blocks.IndefiniteBlock` | tools/tds340.py:88-90 | behind #0 the payload is all the rest without the newlines that close it |
| `Blocks.BadLengthIsRefused` | tools/tds340.py:91 | a length that is no number is refused |
| `Blocks.SignAndBlanks` | tools/tds340.py:91 | a length may carry a sign and stand between blanks, as int() has it |
| `Blocks.Underscores` | tools/tds340.py:91 | and single underscores may stand between its digits |

## Left out

Without a timeout (timeout 0) the source waits for ever for a partner that does not answer. A method must
terminate, so these members take a timeout, or an eager engine and a partner that does its part:

- TransferOut.TntTransferOut: timeout 0 on other buses. Likewise the members below.
- TransferOut.Fill: as TransferOut.TntTransferOut.
- TransferOut.AwaitDone: as TransferOut.TntTransferOut.
- TransferIn.TntRead: timeout 0 without an eager engine and a talker that has cap bytes or an END byte.
- TransferIn.Collect: as TransferIn.TntRead.
- TransferIn.CollectLoop: as TransferIn.TntRead.
- TransferIn.ReadInTurn: timeout 0.
- Control.WaitAtn: timeout 0 while ATN is not as wanted.
- Control.TntCommand: timeout 0 without an eager engine.
- Control.TntWrite: as TransferOut.TntTransferOut.
- Gpib488.GpibSendCommands: timeout 0 without an eager engine.
- Gpib488.GpibAddressedCommand: as Gpib488.GpibSendCommands.
- Gpib488.GpibClear: as Gpib488.GpibSendCommands.
- Gpib488.AddressDevice: as Gpib488.GpibSendCommands.
- Gpib488.GpibWrite: as Gpib488.GpibSendCommands.
- Gpib488.GpibRead: as TransferIn.TntRead, with the talker at the address.
- Gpib488.ReadAddressed: as TransferIn.TntRead.
- Gpib488.ReadMessage: as Gpib488.GpibRead; besides, the instrument is not in serial-poll mode when the call begins.
- Gpib488.ReadStatus: timeout 0 without an eager engine and a status byte to come.
- Gpib488.PollOnce: timeout 0 without an eager engine and an instrument at the address.
- Gpib488.GpibSerialPoll: as Gpib488.PollOnce. Our own secondary address is never sent here, nor is it by the source.
- AnyChip.AnyDriver.WaitAtn: timeout 0, likewise the other loops of that module.

Other limits of the model:

- ChipModel.SimTnt.NowMs: the simulator divides a 32-bit microsecond counter, which wraps after 71 minutes; the model counts milliseconds modulo 2^32, as a tick counter does.
- ChipModel.SimTnt.Engine: the simulator's instrument logs have a fixed size and its talker sets EOI on its last byte only; here the logs are unbounded and any byte may carry EOI. One instrument is simulated; buses with more are in Addressing.
- ChipModel.SimTnt.Write8: the simulator runs its engine behind a FIFO write and not before other writes; here it may run before every access, which includes that.
- Control.TntTakeControl: the simulator gives synchronous and asynchronous take-control the same effect, and so no result tells them apart.
- Interrupts, DMA, 9914 mode, 16-bit FIFO access, parallel poll, pass control and register snapshots: not exercised by the transfers.
- Thunks.ImportThunkCorrect: addresses are integers that do not wrap. The text of the assembly and parse_table's handling of malformed lines are not modelled; its bound on the argument count is.
- PnpId.Gather: a failing tuple read ends the chain; the errors themselves and the decoding of single tuples for the log are not modelled.
- Formatter.Format: formats whose width overflows an int, output of 2^32 characters or more, and arguments that do not match the conversions are excluded.
- Formatter.ParseInt: an int that overflows is a result of its own, since C gives it no meaning.
- Division.ModSi3: the C expression overflows for the least int and -1, which C leaves undefined; it is read as the two's-complement instructions compute it.
- Gateway.Server.ServeClient: socket errors, idle ticks and a stop requested by another thread meanwhile are left out, as is what the ++ commands other than quit do.
- Gateway.WireDelivered: do_write's call of the driver is not included; the buffer it builds is in Gateway.WriteBuffer.
- Gateway.EscapeFeeds: texts are byte strings; the client's text encoding is not modelled.
- Responses.ParseHeadered: letters outside ASCII are not turned into upper case.
- Card Services, registry, IOCTL plumbing, the NI-style API table, user interface, sockets, build tools and the instrument commands of the Python client: calls into systems that cannot be seen, or tables.
- memset, memcmp and the string helpers of src/rt/crt.c: single loops over one buffer.
