# Verified cores of the sensor firmware

A Dafny model of the parts of the ADuCM360 sensor firmware whose correctness is
not settled by reading one body, with proofs that hold for every input or over
every run. `dafny verify dfyconfig.toml` checks the whole project.

| file | models | main results |
|---|---|---|
| `Wrappers`, `CArith`, `Bits` | missing values; C's truncating division; bit fields by arithmetic | used by the others |
| `Numerals`, `Formatting`, `LogStream` | the number formatter and the bounded logging stream | every printed number parses back; a log is exactly the accepted renderings, in order, each whole, and never fills its buffer |
| `Uart` | baud-rate synthesis | for every tolerance from 1/2048 to a third the generated rate meets it exactly when the total divider is at most 64 and the divisor fits its register, and then it is less than 1/2048 too fast |
| `MacFrame`, `MacFrameProofs`, `MacLayout` | the MAC frame printer and parser | round trips in both directions, injectivity, the place of every field, the verdict on every one-byte corruption and on corrupted delimiters |
| `IntrusiveList`, `Poller`, `ReactorRuns` | linked lists, channels, the poller, one turn of the event loop | the active list after a poll is exactly the channels with a wanted event, each once, in the order of registration, whatever bits the devices report; each is served once, in that order |
| `Pwm`, `PwmRuns`, `PwmAfterOpen` | the PWM driver | any run of requests refines a two-line specification of period and duty; exactly which pairs no request can move; every pin, port and control bit after opening and any run |
| `StringPiece` | string piece comparison | operators and `compare` decide the dictionary order, a total order in which prefixes are convex |
| `RtdCurve`, `PressureCurve`, `Density` | the calibration curves, over the reals | table and formula of the temperature agree to 0.02 degrees; least Lipschitz constant and inverse of the pressure map; the density is the one solution on the rising branch, and exactly when a warmer cell holds the thinner gas |
| `Dma`, `DmaTransfers`, `DmaChannels` | DMA descriptors | over any run no channel disturbs another; for every configuration the control word decodes to what was asked for, and a byte channel set up once transfers exactly the buffers it is given |
| `Nvic` | interrupt priorities | encode, store, fetch and decode round trip; after any run preemption follows the preemption part last set |

Objects that the source updates in place are classes here, buffers are arrays, and
each of their methods is proved equal to a step function on plain values (`Insert`,
`Register`, `Step`, `Packed`, `Verdict`). The results over runs are proved about
folds of these step functions.

## Assumptions about what is outside the source

- UART hardware: bit 15 of COMFBR enables the fraction, bits 12:11 are M, bits 10:0
  are N, COMDIV and COMFBR keep 16 bits, and the rate is
  clock / (32 * divider * COMDIV * (M + N / 2048)).
- DMA controller: the control word is read field by field, lowest bits first, and
  transfer k of a cycle uses the end pointer less (n_minus_1 - k) increments; an
  increment of 3 means a fixed address.
- Interrupt controller: the group priority of a register is what is above the bit
  that the priority group names.
- The register header ADuCM360.h is not part of this model. Register addresses are
  parameters, and so is the size of the MSKI register.
- A device's answer to a poll is a function of the pass and the channel, and the
  poll timer is a number of passes.
- The C library renders a double to fewer than 32 characters, memcmp returns the
  difference of the first two bytes that differ, and sqrt returns the non-negative
  root.

## Where code and expectation part

- UrtCfg is documented to be accurate to 0.1 per cent for standard rates and to 1 per
  cent for others. With a total divider of 128 or 256 the scaled clock is 0, M becomes
  3, and the rate is off by more than a third (`CoarseDividerIsOff`); with a divisor
  beyond 16 bits there is no rate, or one at least twice as high (`LostDivisor`).
  `DocumentedAccuracy` gives the exact condition for both accuracies, `UrtAccuracy`
  for every tolerance between 1/2048 and a third.
- `unpack` tests both delimiters with `&&`, so one right byte is enough. A frame that
  differs only in one byte of its end delimiter is accepted (`OneByteCorruption`), and
  packing what was read from an accepted frame gives the same bytes back exactly when
  the end delimiter is whole (`PackOfUnpack`).
- A PWM pair with period and duty 0 ignores every request for ever, and no other pair
  does (`StuckForever`, `StuckExactly`).
- Lowering a PWM period clips the duty for good (`DutyIsClippedForGood`).
- The comments allow 0 values for a DMA transfer; that makes 1024 (`CountIsExact`).
- For ADC channels the alternate DMA descriptor is selected by adding 12, as the
  comments say, but the header's ALTERNATE is 16, and adding it sets nothing up
  (`AlternateConversions`).
- Pressure at 20 degrees: for a measurement made at 20 degrees, CalculateDensity
  reports a pressure that is always higher than the measured one (`PressureAt20Differs`).
- RAW_MAC, def_SUM16 and the frame delimiters are disabled in the configuration at
  hand, and the table form of the temperature is compiled out. They are modelled as
  they are written.

## Model

Three files are not UTF-8 text. What is modelled of them is cited by the lines that
use it: the list functions of includes/service.cpp:75-124, sum16 of
api/utils.cpp:376-385, and the event loop of reactor/event_loop.cpp:38-55.

| member | source | states |
|---|---|---|
| Numerals.NumeralRoundTrip | api/log/log_stream.cpp:14-53 | in both bases, every number's text parses back to it, is canonical, and starts with 0 only for 0 |
| Numerals.NumeralUnique | api/log/log_stream.cpp:14-53 | every canonical text is the numeral of the number it parses to |
| Numerals.NumeralLength | api/log/log_stream.cpp:14-53 | a numeral has at most k digits exactly when the number is below the k-th power of the base |
| Numerals.DecimalRoundTrip | api/log/log_stream.cpp:14-35 | every integer's text parses back to it, is canonical, and has a minus sign exactly when the integer is negative |
| Numerals.DecimalUnique | api/log/log_stream.cpp:14-35 | every canonical decimal text is the text of the integer it parses to |
| Numerals.DecimalLength | api/log/log_stream.cpp:76-84 | every 64-bit integer, signed or unsigned, takes at most 20 characters |
| Numerals.HexLength | api/log/log_stream.cpp:134-146 | every 64-bit pointer value takes at most 16 digits |
| Formatting.MirroredDigit | api/log/log_stream.cpp:8-9 | the mirrored table, indexed by any C remainder of ten, gives the digit of its magnitude |
| Formatting.HexDigit | api/log/log_stream.cpp:11 | the hexadecimal table gives the upper-case digit of every remainder |
| Formatting.TruncByTen | api/log/log_stream.cpp:20-25 | C's quotient and remainder by ten have the magnitudes of the quotient and remainder of the magnitude, and the quotient moves towards zero |
| Formatting.DigitMoves | api/log/log_stream.cpp:20-25 | one turn of the digit loop keeps pending digits plus reversed written text constant |
| Formatting.ReverseRange | api/log/log_stream.cpp:32 | the range holds its old text reversed, all else is unchanged |
| Formatting.Terminate | api/log/log_stream.cpp:31-32 | the written text is turned round and NUL-terminated, all else is unchanged |
| Formatting.WriteDigits | api/log/log_stream.cpp:16-25 | for every integer, however negative, the loop ends and leaves the reversed digits of its magnitude, touching nothing else |
| Formatting.WriteSign | api/log/log_stream.cpp:27-30 | with the sign the text is the reverse of the signed decimal text |
| Formatting.Convert | api/log/log_stream.cpp:14-35 | the buffer holds the canonical decimal text of the value, NUL-terminated at the returned length, and is unchanged elsewhere |
| Formatting.ConvertHex | api/log/log_stream.cpp:37-53 | the same for upper-case hexadecimal |
| Formatting.WritePointer | api/log/log_stream.cpp:139-143 | what was in front is kept and followed by "0x" and the numeral, whose joint length is returned, NUL-terminated; all else is unchanged |
| Logging.RenderingReadsBack | api/log/log_stream.h:73-131 | a flag renders to 1 for true and 0 for false, numbers and pointers to text they are read back from, text to itself |
| Logging.AcceptedExactly | api/log/log_stream.h:29-37 | text is accepted exactly when it leaves a byte free, a number exactly when 32 bytes are; what is not accepted changes nothing |
| Logging.NumberFits | api/log/log_stream.h:145 | no rendering of a 64-bit number or pointer, with its terminator, exceeds kMaxNumericSize |
| Logging.InsertKeepsRoom | api/log/log_stream.cpp:76-84 | every insertion into a buffer with a free byte leaves a free byte |
| Logging.LogKeepsRoom | api/log/log_stream.h:67-146 | over any sequence of insertions at least one byte stays free |
| Logging.LogIsSubsequence | api/log/log_stream.h:29-37 | the buffer holds the concatenation, in order, of exactly the accepted renderings, each whole |
| Logging.LogIsLossless | api/log/log_stream.h:67-146 | a log whose renderings leave kMaxNumericSize bytes to spare loses nothing |
| Logging.AcceptedIntegerReadsBack | api/log/log_stream.cpp:76-84 | whatever integer is accepted, what it appended parses back to it |
| Logging.FixedBuffer.constructor | api/log/log_stream.h:63-65 | a new buffer is empty and has a free byte |
| Logging.FixedBuffer.Avail | api/log/log_stream.h:44 | at least one byte and at most the whole buffer is free |
| Logging.FixedBuffer.Append | api/log/log_stream.h:29-37 | all of the text is appended if a byte stays free, nothing otherwise |
| Logging.FixedBuffer.Add | api/log/log_stream.h:45 | the cursor moves on by the length and stays inside the buffer |
| Logging.FixedBuffer.Reset | api/log/log_stream.h:47 | the buffer is empty again |
| Logging.FixedBuffer.DebugString | api/log/log_stream.cpp:55-60 | the terminator lands inside the buffer and leaves the contents alone |
| Logging.LogStream.constructor | api/log/log_stream.h:67-71 | a new stream holds the log of no insertions |
| Logging.LogStream.PutFlag | api/log/log_stream.h:73-77 | inserts "1" or "0", all or nothing |
| Logging.LogStream.PutCharacter | api/log/log_stream.h:98-102 | inserts the character, or nothing |
| Logging.LogStream.PutText | api/log/log_stream.h:107-131 | inserts the text, all or nothing |
| Logging.LogStream.PutInteger | api/log/log_stream.cpp:76-132 | for every 64-bit integer inserts its decimal text if kMaxNumericSize bytes are free, and writes nothing past the buffer |
| Logging.LogStream.PutPointer | api/log/log_stream.cpp:134-146 | the same for "0x" and the hexadecimal text of a pointer |
| Logging.LogStream.PutDouble | api/log/log_stream.cpp:148-157 | the same for the C library's rendering of a double |
| Logging.LogStream.Put | api/log/log_stream.h:73-131 | whichever operator an item stands for inserts it |
| Logging.LogStream.PutAll | api/log/log_stream.h:67-146 | after any sequence of insertions into an empty stream its buffer holds the log of the sequence, the accepted renderings in order |
| Uart.TotalDivider | lib/common/UrtLib.c:68-108 | the decoded total divider is a power of two between 1 and 256 |
| Uart.DividerIsTheHardwares | lib/common/UrtLib.c:68-108 | for all register values the decoded divider is two to the number in bits 11..9 of CLKCON1, plus one if bit 0 of CLKSYSDIV is set |
| Uart.Port.UrtCfg | lib/common/UrtLib.c:63-115 | the registers get divisor and fraction word for the divider that the hardware reads from the clock registers, format and length bits and no others reach COMLCR, the line status is returned, and no 32-bit value overflows on the way |
| Uart.NestedDivision | lib/common/UrtLib.c:109-111 | dividing twice is dividing by the product |
| Uart.DivisorRange | lib/common/UrtLib.c:109 | the integer divider leaves less than a factor of two to the fraction |
| Uart.RatioBounds | lib/common/UrtLib.c:111 | up to a total divider of 64 the fraction N lies in 0 to 2047, and the ratio is the exact quotient rounded down |
| Uart.FractionWordFields | lib/common/UrtLib.c:111 | OR-ing 0x8800 into such an N disturbs none of its bits: enabled, M is 1, N is N |
| Uart.FractionWordLost | lib/common/UrtLib.c:111 | from -2048 the word written is 0xF800, where M is 3 |
| Uart.RateWithDivisor | lib/common/UrtLib.c:109-111 | with the computed fraction and divisor the rate is at least the requested one and less than 1/2048 above it |
| Uart.RateWithHalf | lib/common/UrtLib.c:109-111 | with the computed fraction and a divisor of at most half the computed one it is at least twice the requested one |
| Uart.LostDivisor | lib/common/UrtLib.c:109-110 | when the divisor exceeds 16 bits there is no rate, or one at least twice as high |
| Uart.CoarseDividerIsOff | lib/common/UrtLib.c:57-60 | beyond a total divider of 64 the generated rate is below two thirds of the requested one |
| Uart.UrtAccuracy | lib/common/UrtLib.c:57-111 | for every tolerance between 1/2048 and a third, the rate generated from the written registers meets it exactly when the total divider is at most 64 and the divisor fits 16 bits, and is then less than 1/2048 too fast |
| Uart.DocumentedAccuracy | lib/common/UrtLib.c:57-60 | the documented 0.1 and 1 per cent hold exactly under that condition |
| Uart.ConfiguredAccuracy | lib/common/UrtLib.c:63-111 | for all clock settings the rate that the hardware generates with its own divider from the written registers meets a tolerance exactly under that condition |
| Uart.StandardRates | lib/common/UrtLib.c:109-111 | the register values for 1200, 9600 and 115200 baud at the reset clock setting |
| MacFrames.Truncated | app/protocol.cpp:101-114 | a double word read into a 16-bit variable is the low word |
| MacFrames.CopyBytes | app/protocol.cpp:39-53 | the bytes follow what stood before the pointer, and nothing behind them changes |
| MacFrames.StWord | includes/macro.h:16-17 | two bytes, low first, follow what stood before |
| MacFrames.Sum16Of | api/utils.h:211 | the loop computes the sum of all bytes modulo 2^16 |
| MacFrames.ProtocolMac.Pack | app/protocol.cpp:27-84 | the buffer starts with the printed frame and is unchanged behind it, only the length field of the MAC struct is overwritten, and the frame length is returned in 16 bits |
| MacFrames.ProtocolMac.PutBody | app/protocol.cpp:33-72 | either shape of frame is printed up to its checksum |
| MacFrames.ProtocolMac.PutLongBody | app/protocol.cpp:33-57 | with a payload: MAC part, function, sum, index, length and payload behind one another |
| MacFrames.ProtocolMac.PutShortBody | app/protocol.cpp:59-72 | without a payload: MAC part, function and sum only |
| MacFrames.ProtocolMac.PutTrailer | app/protocol.cpp:74-81 | checksum of the body and end delimiter follow the body |
| MacFrames.ProtocolMac.Unpack | app/protocol.cpp:86-130 | returns the verdict on the bytes; a refused frame changes nothing, an accepted one sets every field, the payload pointer and the system time from the bytes |
| MacFrameProofs.MacReadBack | app/protocol.cpp:112-122 | the MAC part is read back from where it was printed |
| MacFrameProofs.MacPrintBack | app/protocol.cpp:38-40 | printing the MAC part that was read gives its bytes |
| MacFrameProofs.UnpackOfPack | app/protocol.cpp:27-130 | every frame with a passing start delimiter and a 16-bit length is accepted, whatever follows it, and read back: all MAC fields, and with a payload all application fields and the payload, else function and sum |
| MacFrameProofs.PackOfUnpack | app/protocol.cpp:86-129 | an accepted frame of consistent length is reproduced byte for byte by packing what was read, exactly when its end delimiter is whole |
| MacFrameProofs.PackIsInjective | app/protocol.cpp:35-57 | frames with payloads that print alike are alike, up to the overwritten length field |
| MacFrameProofs.HeaderReadBack | app/protocol.cpp:35-57 | header and payload come back from a printed frame of any length |
| MacFrameProofs.ShortPacked | app/protocol.cpp:74-81 | in a frame within 16 bits the checksum covers all of the body |
| MacFrameProofs.SumOfChange | app/protocol.cpp:107-110 | changing one byte changes the sum by the difference |
| MacFrameProofs.Sum16OfChange | app/protocol.cpp:107-110 | changing one byte changes the checksum |
| MacFrameProofs.OneByteCorruption | app/protocol.cpp:86-110 | a printed frame with any one byte changed is refused with -4 in the length field, -3 elsewhere, and accepted in the end delimiter |
| MacLayout.FrameLength | app/protocol.cpp:33-83 | a frame has 27 bytes without a payload and 30 more than the payload with one, and its length field counts all but the first four |
| MacLayout.FieldLayout | app/protocol.cpp:38-40 | every MAC field stands at its own byte offset, low byte first |
| MacLayout.FieldsOfMac | app/protocol.cpp:101-126 | the reader takes every field from those offsets |
| MacLayout.AppLayout | app/protocol.cpp:43-81 | function, sum, index, length, payload, checksum and the end bytes 0x55 and 0xAA at their offsets |
| MacLayout.SumAddsUp | app/protocol.cpp:74 | the checksum of a concatenation is the sum of the checksums |
| MacLayout.SumOfOne | app/protocol.cpp:74 | the checksum of one byte is the byte |
| MacLayout.VerdictByBytes | app/protocol.cpp:91-129 | what each return value says about the bytes, an accepted frame having one right start byte and one right end byte |
| MacLayout.DelimiterCorruption | app/protocol.cpp:91-100 | a printed frame with both bytes of a delimiter changed is refused, with -1 at the start and -2 at the end |
| IntrusiveLists.ListNode.constructor | reactor/channel.cpp:10-11 | a node on its own is an empty list |
| IntrusiveLists.RingIsDistinct | reactor/poller.cpp:41 | in a list that a walk can come to the end of, no node occurs twice |
| IntrusiveLists.EmptyRing | reactor/poller.cpp:9 | a head linked to itself is exactly the list without nodes |
| IntrusiveLists.ListInsertAfter | reactor/poller.cpp:57-71 | a new node becomes the first of the list; a node already in it closes a cycle that never leads back to the head |
| IntrusiveLists.ListDel | reactor/poller.cpp:78 | the list is linked without the node, and the node is on its own |
| IntrusiveLists.ListFind | reactor/poller.cpp:70-77 | the node is found exactly when it is in the list behind the head |
| Reactor.Wanted | reactor/poller.cpp:48-55 | the recorded event is none or a single bit the channel is interested in; it is input exactly when input is reported and wanted, and none only if no output is wanted either |
| ReactorRuns.StatusBits | reactor/poller.cpp:48-52 | every status that is not an error has an input bit 0x02, an output bit 0x04 and others |
| ReactorRuns.WantedByFlags | reactor/poller.cpp:48-55 | for every status and mask: input (0x02) if reported and wanted, else output (0x01) if reported and wanted, else nothing |
| ReactorRuns.FoundByFlags | reactor/poller.cpp:41-60 | a pass finds a channel exactly when its device reports something wanted, as input whenever that is |
| ReactorRuns.SilentIsNotFound | reactor/poller.cpp:48 | a channel whose device answers with an error or nothing is not found |
| ReactorRuns.FirstFoundPass | reactor/poller.cpp:40-62 | a poll ends with what the first pass found that found anything, or with nothing after passes that found nothing |
| ReactorRuns.ReadableIsFound | reactor/poller.cpp:40-60 | a channel that wants input is found as soon as its device reports any, unless the poll ended before |
| ReactorRuns.InterestAfterRun | reactor/channel.h:27-46 | after any run of interest operations the mask is bit 0x02 if reading was enabled last, and bit 0x01 if writing was |
| Reactor.RegistryMember | reactor/poller.cpp:68-80 | after any run of requests a channel is registered exactly when it was updated since its last removal |
| Reactor.RegistryOfRun | reactor/poller.cpp:68-80 | after any run of requests exactly the channels updated since their last removal are registered, each once, newest first |
| Reactor.SelectedMember | reactor/poller.cpp:41-60 | the channels of the active list are the registered ones that were hit |
| Reactor.SelectedDistinct | reactor/poller.cpp:41-60 | none of them is in it twice |
| Reactor.SelectedOldestFirst | reactor/poller.cpp:57 | they are in the order in which they were registered |
| Reactor.ActiveAfterRun | reactor/poller.cpp:41-80 | after any run of requests a pass selects exactly the hits among the channels updated since their last removal, each once, in the order of registration |
| Reactor.Channel.constructor | reactor/channel.cpp:3-13 | a new channel has no interest, no event, no handler, and nodes that lead back to it |
| Reactor.Channel.Change | reactor/channel.h:27-46 | the interest mask changes as asked and the channel is registered, unless it was |
| Reactor.Channel.HandleEvent | reactor/channel.cpp:29-49 | one callback for each bit of the recorded event, input first, if there is a handler |
| Reactor.Poller.UpdateChannel | reactor/poller.cpp:68-73 | registers a channel at the front unless it is registered, and keeps the list well linked |
| Reactor.Poller.RemoveChannel | reactor/poller.cpp:75-80 | takes the channel out if it is in, and keeps the list well linked |
| Reactor.Poller.Poll | reactor/poller.cpp:29-65 | from an empty active list, ends with it linking exactly the channels found in the first pass that finds any, each holding its event, or empty when time runs out |
| Reactor.Poller.NextPass | reactor/poller.cpp:40-62 | a pass finds the events that the devices report in it, and leaves the interest masks alone |
| Reactor.Poller.PollPass | reactor/poller.cpp:41-61 | one pass links exactly the channels with an event, and reports whether there is one |
| Reactor.Poller.Visit | reactor/poller.cpp:43-59 | one channel is polled, and linked with its event if it has one |
| Reactor.Poller.Activate | reactor/poller.cpp:49-58 | a channel with an event becomes the first of the active list |
| Reactor.EventLoop.Clear | reactor/poller.cpp:29 | the active list is empty whatever it held |
| Reactor.EventLoop.LoopOnce | reactor/poller.cpp:28-65 | the callbacks of one turn are those of the channels found, in list order: exactly the registered channels with a handler and an event, no channel twice, each with its event |
| Reactor.EventLoop.Dispatch | reactor/channel.cpp:29-49 | the walk calls back every channel of the active list with the event found for it |
| Reactor.CallMember | reactor/channel.cpp:29-49 | a callback is made exactly for a listed channel with a handler, with its event |
| Reactor.ServedOnce | reactor/channel.cpp:29-49 | in one turn no channel is served twice, and each gets just its event |
| Reactor.ServedSelected | reactor/channel.cpp:29-49 | the same for the channels that a pass selects from the registry |
| ReactorRuns.ServedOldestFirst | reactor/channel.cpp:29-49 | channels are served in the order of the list they are on |
| ReactorRuns.TurnAfterRun | reactor/poller.cpp:28-80 | after any run of requests exactly the registered channels with a handler and an event are called back, each once, in the order of registration |
| Reactor.FoundEvents | reactor/poller.cpp:48-58 | every event found is input alone or output alone |
| Pwm.Driver.PwmTime | lib/common/PwmLib.c:106-145 | writes the pair's four registers in 16 bits unless the high side is below the low side, with the return code, and no other pair |
| Pwm.Driver.PwmGo | lib/common/PwmLib.c:198-210 | standard mode, enabled or not, other bits kept |
| Pwm.Driver.PwmLoad | lib/common/PwmLib.c:174-182 | the load bit is set, other bits kept |
| Pwm.Driver.SetFreq | bsp/driver/pwm/drv_pwm.cpp:131-148 | the pair follows the period request; the outputs end up enabled if it changed; nothing else changes |
| Pwm.Driver.SetDuty | bsp/driver/pwm/drv_pwm.cpp:150-166 | the pair follows the duty request; a load is asked for if it changed; nothing else changes |
| Pwm.Driver.PinsDisable | bsp/driver/pwm/drv_pwm.cpp:60-71 | the pin is a GPIO output, if it was not GPIO before |
| Pwm.Driver.PinsEnable | bsp/driver/pwm/drv_pwm.cpp:73-78 | the pin is a PWM output, if it was GPIO before |
| Pwm.Driver.Drive | bsp/driver/pwm/drv_pwm.cpp:302-303 | the pin's output bit is set or cleared, no other |
| Pwm.Driver.Init | bsp/driver/pwm/drv_pwm.cpp:204-214 | both pins are GPIO outputs and the PWM control registers are cleared |
| Pwm.Driver.Ioctl | bsp/driver/pwm/drv_pwm.cpp:240-306 | all registers after any request, and which requests are refused |
| Pwm.Driver.ConfigureMeasure | bsp/driver/pwm/drv_pwm.cpp:218-220 | pin 0 of port 0 is a GPIO output with pull-up, other bits kept |
| Pwm.Driver.Open | bsp/driver/pwm/drv_pwm.cpp:216-228 | that pin is configured, the outputs are enabled, both PWM pins forced high, measuring on |
| PwmRuns.TimedRegisters | lib/common/PwmLib.c:106-145 | the four registers after PwmTime, for all pairs and arguments |
| PwmRuns.FreqOnAnyPair | bsp/driver/pwm/drv_pwm.cpp:131-148 | on any pair, exactly which period requests are refused, and all four registers after the others |
| PwmRuns.DutyOnAnyPair | bsp/driver/pwm/drv_pwm.cpp:150-166 | the same for duty requests |
| PwmRuns.FreqRefines | bsp/driver/pwm/drv_pwm.cpp:131-148 | on a sound pair a period request sets the period and clips the duty, a zero does nothing, and the pair stays sound |
| PwmRuns.DutyRefines | bsp/driver/pwm/drv_pwm.cpp:150-166 | on a sound pair a duty request sets the duty clipped by the period, a zero does nothing, and the pair stays sound |
| PwmRuns.StepRefines | bsp/driver/pwm/drv_pwm.cpp:240-306 | so does every ioctl, and those for the other pair do nothing to this one |
| PwmRuns.RunRefines | bsp/driver/pwm/drv_pwm.cpp:109-166 | over any run from a sound pair, the registers follow the two-line specification and the pair stays sound |
| PwmRuns.UnchangedOrSound | bsp/driver/pwm/drv_pwm.cpp:109-166 | from any state of the registers every run leaves a pair as it was or makes it sound, with its low side at 1 |
| PwmRuns.DutyIsClippedForGood | bsp/driver/pwm/drv_pwm.cpp:139-141 | until the next duty request the duty is the old one clipped by the lowest period since |
| PwmRuns.StuckForever | lib/common/PwmLib.c:108-109 | a pair with period and duty 0 is unchanged by every run |
| PwmRuns.StuckExactly | bsp/driver/pwm/drv_pwm.cpp:131-166 | those are the only pairs that no request moves |
| PwmRuns.PinsOfRun | bsp/driver/pwm/drv_pwm.cpp:59-100 | after initialisation and any run a pin is in PWM mode exactly when its last request was a PWM request, holds the level last forced, and the rest of the port is unchanged |
| PwmRuns.EnabledAfterOpen | bsp/driver/pwm/drv_pwm.cpp:216-228 | after opening, every run leaves the outputs enabled in standard mode |
| PwmAfterOpen.PinsAfterOpen | bsp/driver/pwm/drv_pwm.cpp:59-100 | after opening and any run, bits 5:4 and 9:8 of GPCON and bits 2 and 4 of the output register follow the last requests for RHREF and HEAT, and the rest of port 1 is unchanged |
| PwmAfterOpen.MeasuringAfterOpen | bsp/driver/pwm/drv_pwm.cpp:216-297 | after opening and any run, pin 0 of port 0 is a pulled-up output that is high exactly when the last measure request was on or there was none, and the rest of port 0 is unchanged |
| PwmAfterOpen.ControlAfterOpen | lib/common/PwmLib.c:174-210 | after opening and any run, the control registers hold the enable bit, the load bit exactly from the first change of a duty on, and nothing else |
| PwmAfterOpen.PairsAfterOpen | bsp/driver/pwm/drv_pwm.cpp:109-129 | RHREF requests move the first pair, HEAT requests the second, and none the third |
| StringPieces.MemcmpMeaning | api/log/StringPiece.h:99-102 | the comparison of n bytes finds the first difference, and 0 exactly when there is none |
| StringPieces.CompareDecides | api/log/StringPiece.h:118-125 | compare is negative, zero or positive exactly when the piece is before, equal to or after the other in dictionary order |
| StringPieces.OperatorsAgree | api/log/StringPiece.h:99-116 | the five operators are the signs of compare |
| StringPieces.BeforeIsAsymmetric | api/log/StringPiece.h:107-116 | dictionary order is asymmetric and irreflexive |
| StringPieces.BeforeIsTransitive | api/log/StringPiece.h:107-116 | dictionary order is transitive |
| StringPieces.LessEqualIsATotalOrder | api/log/StringPiece.h:112-113 | the operator <= is reflexive, total, antisymmetric and transitive on byte strings |
| StringPieces.StartsWithMeaning | api/log/StringPiece.h:135-138 | starts_with is being a prefix |
| StringPieces.PrefixIsConvex | api/log/StringPiece.h:135-138 | whatever lies between two pieces with a prefix has it too |
| RtdCurve.Segment | app/algorithm.cpp:30-34 | for every resistance both knots of the chosen segment exist |
| RtdCurve.SegmentBounds | app/algorithm.cpp:30-34 | the resistance lies in the chosen segment, up to the clamping at both ends |
| RtdCurve.LinesMeet | app/algorithm.cpp:35 | neighbouring segments meet at their common knot |
| RtdCurve.TableRises | app/algorithm.cpp:23-25 | every segment of the table rises by between 0.2529 and 0.2655 degrees per ohm |
| RtdCurve.InterpolatedSlope | app/algorithm.cpp:26-38 | the interpolation of any such table rises at these rates between any two resistances |
| RtdCurve.TableSlope | app/algorithm.cpp:26-38 | the table form is continuous and strictly increasing on all resistances |
| RtdCurve.TablePassesThroughKnots | app/algorithm.cpp:23-35 | the table form reproduces all 31 entries |
| RtdCurve.TableBeyondItsEnds | app/algorithm.cpp:31-35 | beyond the table its first and last line go on |
| RtdCurve.FormulaIncreases | app/algorithm.cpp:41-49 | the formula is strictly increasing from 0 ohms on, across its break at 1000 |
| RtdCurve.FormulaValues | app/algorithm.cpp:41-49 | three values of each branch, which determine it |
| RtdCurve.FormulaJumps | app/algorithm.cpp:44-47 | 1000 ohms belong to the lower branch, and the formula jumps up behind them |
| RtdCurve.FormulaMeetsTable | app/algorithm.cpp:23-47 | at all 31 knots the formula is within -0.01535 and 0.008 degrees of the table |
| RtdCurve.TableAgreesWithFormula | app/algorithm.cpp:15-49 | from RMIN to RMAX the two forms agree to 0.02 degrees |
| PressureCurve.Segment | app/algorithm.cpp:59-70 | the segment is the first whose right end is beyond the reading, the last if none is |
| PressureCurve.CalculatePRSVal | app/algorithm.cpp:55-73 | the loop computes the pressure on the line through the two points of that segment |
| PressureCurve.PassesThroughPoints | app/algorithm.cpp:55-73 | all four calibration points are reproduced |
| PressureCurve.PressureSlope | app/algorithm.cpp:55-73 | between any two readings, beyond the points too, the rate lies between the segments' rates |
| PressureCurve.LipschitzConstants | app/algorithm.cpp:55-73 | a number is a Lipschitz constant of the map exactly when it is at least the steepest segment's rate |
| PressureCurve.MonotoneWhenTableIs | app/algorithm.cpp:55-73 | the pressure never falls exactly when the table does not |
| PressureCurve.StrictlyIncreasing | app/algorithm.cpp:55-73 | it strictly increases when the table does |
| PressureCurve.SwappedInverts | app/algorithm.cpp:55-73 | the same function over swapped tables is then its inverse, on the whole line |
| Density.CalculateDensity | app/algorithm.cpp:75-93 | the result is the one density that has this pressure and where pressure does not fall with density; the pressure at 20 degrees is that of the result |
| Density.RateIsTheRoot | app/algorithm.cpp:87 | the square root taken is the rate at the density |
| Density.DensityAmongTheRoots | app/algorithm.cpp:87-90 | of the two roots it is the smaller while the leading coefficient is negative, the larger when positive |
| Density.LeadingCoefficient | app/algorithm.cpp:83 | the leading coefficient is negative up to 266.5 degrees and positive from 267 on |
| Density.DensityFollowsPressure | app/algorithm.cpp:83-90 | at a fixed temperature, on either branch, a higher pressure gives a higher density, and conversely |
| Density.DensityIsNotNegative | app/algorithm.cpp:83-90 | with a middle coefficient of at least 0 the density is non-negative exactly from the pressure of an empty cell on |
| Density.PressureAt20Differs | app/algorithm.cpp:91-92 | by how much the pressure at 20 degrees exceeds one measured at 20 degrees, always by more than 0.2 |
| Density.PressureAt20Increases | app/algorithm.cpp:91-92 | the pressure at 20 degrees strictly increases with the density, where such densities occur |
| Density.PressureByTemperature | app/algorithm.cpp:83-85 | at every density the pressure is linear in the temperature, at a stated rate, and at 20 degrees it is a stated quadratic |
| Density.WarmerIsThinner | app/algorithm.cpp:83-90 | at the same pressure the warmer cell has the lower density exactly when pressure rises with the temperature at that density |
| Density.PerDegreeSign | app/algorithm.cpp:83-85 | from a density of 0.0645 on it does, and up to 0.0644 it falls |
| Dma.ControlWordRoundTrip | lib/common/DmaLib.h:33-58 | fields and 32-bit control words correspond one to one |
| Dma.RequestReadBack | lib/common/DmaLib.c:369-380 | size, both increments and mode are read back from the OR of their constants |
| Dma.ChannelsAreDistinct | lib/common/DmaLib.c:70-85 | for every 32-bit int a descriptor exists exactly for 1 to 32, and is the one below: no primary and alternate share one |
| Dma.Touched | lib/common/DmaLib.c:355-789 | a call given a channel number touches at most the descriptor below that number |
| Dma.OnlyOwnCallsCount | lib/common/DmaLib.c:355-789 | over any run a descriptor depends on the calls for its own channel only |
| Dma.AlternateConversions | lib/common/DmaLib.c:733-739 | adding 12 to a kind of conversion selects the alternate descriptor, adding ALTERNATE none |
| Dma.DescriptorTable.constructor | lib/common/DmaLib.c:32-39 | the table starts out zeroed |
| Dma.DescriptorTable.DmaPeripheralStructSetup | lib/common/DmaLib.c:355-388 | the whole table afterwards: one descriptor built anew, all but its mode, count and pointers configured |
| Dma.DescriptorTable.DmaStructPtrOutSetup | lib/common/DmaLib.c:419-533 | the whole table afterwards: for a supported channel source end and register, nothing for others |
| Dma.DescriptorTable.DmaStructPtrInSetup | lib/common/DmaLib.c:565-638 | the same towards memory |
| Dma.DescriptorTable.DmaCycleCntCtrl | lib/common/DmaLib.c:686-692 | the whole table afterwards: mode and count of one descriptor |
| Dma.DescriptorTable.AdcDmaReadSetup | lib/common/DmaLib.c:728-789 | the whole table afterwards: one descriptor built anew for a readable conversion, nothing for others |
| DmaTransfers.CountIsExact | lib/common/DmaLib.c:690 | the count field is exact for 1 to 1024 values and no others; 0 makes 1024 |
| DmaTransfers.ShapeSurvives | lib/common/DmaLib.c:419-692 | sizes and increments survive every run that does not build the descriptor anew |
| DmaTransfers.FixedSurvives | lib/common/DmaLib.c:686-692 | all but mode and count survive every run that only counts on that channel |
| DmaTransfers.ProgrammedAsRequested | lib/common/DmaLib.c:355-692 | for every channel, configuration and count of 1 to 1024, and after any run that does not rebuild it, the control word decodes to exactly the requested size, increments, mode and n-1, and the pointers are those last set |
| DmaTransfers.SetUpOnceThenSend | lib/common/DmaLib.c:355-692 | a memory-to-peripheral byte channel set up once then sends exactly the n bytes of the buffer, in order, to its register, or for the ADCs to their registers in order |
| DmaTransfers.SetUpOnceThenReceive | lib/common/DmaLib.c:355-692 | a peripheral-to-memory byte channel set up once then fills exactly the n bytes of the buffer, in order |
| DmaTransfers.StartsAtBuffer | lib/common/DmaLib.c:419-638 | a cycle starts at its buffer exactly when its increment is the pointers' unit, or it has one transfer |
| DmaTransfers.ConversionsRearm | lib/common/DmaLib.c:686-789 | for every configuration, conversions are set up as requested, and after any run of cycles the count call alone restores the descriptor |
| DmaTransfers.ConversionsFillTheBuffer | lib/common/DmaLib.c:686-789 | set up as words they then fill exactly the buffer, in order |
| DmaChannels.OutChannels | lib/common/DmaLib.c:419-533 | every memory-to-peripheral channel and its alternate delivers to its own peripheral's register, by name; no other number does anything |
| DmaChannels.InChannels | lib/common/DmaLib.c:565-638 | every peripheral-to-memory channel reads its own peripheral's register |
| DmaChannels.Conversions | lib/common/DmaLib.c:728-789 | each kind of conversion reads its own result register into its own descriptor, which is given in full |
| DmaChannels.SetUpInFull | lib/common/DmaLib.c:355-388 | the whole descriptor after a set-up, with 17 transfers and whatever mode and pointers the local held |
| DmaChannels.CountedInFull | lib/common/DmaLib.c:686-692 | mode and count after a count call, all else kept |
| DmaChannels.ControlWordPlaces | lib/common/DmaLib.h:33-58 | the place value of every field in the control word |
| DmaChannels.RequestKeepsItsBits | lib/common/DmaLib.h:109-146 | sizes, increments and mode go to the control word at the bits in which callers ask for them |
| Nvic.EncodePriority | lib/common/core_cm3.h:1649-1662 | for every group and width the encoded value fits the implemented bits |
| Nvic.DecodePriority | lib/common/core_cm3.h:1680-1691 | whatever encoded the priority, its two masked parts are returned |
| Nvic.EncodeDecoded | lib/common/core_cm3.h:1649-1691 | every value of the implemented bits is the encoding of its decoded parts |
| Nvic.EncodedOrder | lib/common/core_cm3.h:1649-1662 | encoded values compare lexicographically: preemption, then sub-priority |
| Nvic.FetchStored | lib/common/core_cm3.h:1601-1631 | storing and fetching keeps exactly the implemented bits |
| Nvic.PriorityRoundTrip | lib/common/core_cm3.h:1601-1691 | encode, store, fetch and decode return both parts masked to their widths |
| Nvic.GroupPriorityOfStored | lib/common/core_cm3.h:1601-1662 | the hardware's group priority of a stored encoding is its preemption part, spread over the unimplemented bits |
| Nvic.PreemptionIsByFirstPart | lib/common/core_cm3.h:1601-1662 | one stored encoding preempts another exactly when its preemption part is lower |
| Nvic.WidthsOfFour | lib/common/core_cm3.h:1651-1656 | how each group splits four implemented bits |
| Nvic.PartsAreMasked | lib/common/core_cm3.h:1658-1661 | masking keeps every value of a part's width and drops multiples of it |
| Nvic.SlotsAreDistinct | lib/common/core_cm3.h:1603-1606 | the registers are in the order of the interrupt numbers, system handlers first, and no two share one |
| Nvic.LastSetIsFetched | lib/common/core_cm3.h:1601-1631 | after any run an interrupt has the priority last set for it, or its old one |
| Nvic.PreemptionAfterRun | lib/common/core_cm3.h:1601-1662 | after any run, preemption between two interrupts follows the preemption parts last set |
| Nvic.Controller.constructor | lib/common/core_cm3.h:144 | all priorities start out 0 |
| Nvic.Controller.SetPriority | lib/common/core_cm3.h:1601-1607 | one register gets the priority in its upper bits, no other changes |
| Nvic.Controller.GetPriority | lib/common/core_cm3.h:1624-1631 | returns what the interrupt's register holds in its upper bits |

## Left out

- Logging: `Fmt` and the text of snprintf; a double stands for its rendering.
- Logging: `append` with a negative length, which the conversion to size_t makes too long to be accepted.
- Logging: the cookie functions and `asString`.
- StringPiece: the mutators and constructors; pieces are byte strings here.
- Uart: the behaviour of UrtCfg for a divisor of 0, a division by zero.
- MacFrames: big-endian macros, the control bit field by name, `frm_ctl_init` and the sequence numbers, all of them plain assignments.
- MacFrames.ProtocolMac.Unpack: reads the whole header of an accepted frame, as the code does, so a buffer that holds one has to be at least a header long.
- IntrusiveLists: `list_insert_before` and splicing, which the reactor does not use.
- Reactor.Channel.HandleEvent: does not model the device read into the buffer or the time stamp that a callback gets, which belong to the device.
- Reactor: what callbacks do to the lists while the loop walks them, and the timer behind the budget.
- Reactor: the loop's end; one turn is modelled, and the next starts by clearing the active list.
- Pwm: clock source and interrupt bits of PwmInit beyond the cleared control registers, and what the hardware does with a load bit.
- Rounding: the calibration curves are modelled over the reals, so nothing is said about single precision.
- PressureCurve.CalculatePRSVal: does not model the division by zero of two equal neighbouring readings.
- Density.CalculateDensity: does not model a negative discriminant or a leading coefficient of 0, where the code computes no number.
- Dma: `AdcDmaWriteSetup` and `DacDmaWriteSetup`, which repeat the pattern of `AdcDmaReadSetup`, and the channel enable masks.
- Dma: addresses are integers, so a buffer at the end of memory does not wrap around.
- Nvic: the priority grouping register and the enable, pending and active bits.
- Register setters and getters of the other peripherals, interrupt vectors, startup code and the device wrappers.
