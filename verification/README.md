# Verified models of OpenXBOX devices and codecs

This project models seven stateful parts of the OpenXBOX emulator and proves what
they promise, over every input and every run. Each part has its state and its
operations as functions on values, theorems about those functions, and, where the
emulator has an object or a loop, a class or a method with the same steps that is
proved to compute those functions.

**The cascaded 8259 interrupt controllers** (`Pic*.dfy`, `I8259.dfy`). Registers are
sets of lines. One port access or one change of a device line is one step. Delivering
an interrupt recurses: UpdateIRQ hands GetCurrentIRQ's vector to the processor, and
GetCurrentIRQ acknowledges a line and so calls UpdateIRQ again, from the slave through
the master's line 2. The theorems say exactly when that recursion ends (a "storm" is a
level-triggered request that auto-EOI acknowledges for ever), bound it by 16
acknowledgements, say what is left and what was sent when it ends, and carry
invariants through whole runs: conservation of edges, acknowledgements and vectors, no
spurious vectors, strictly nested service (Intel 8259A data sheet, "Fully Nested
Mode", "Automatic End of Interrupt (AEOI) Mode", "Special Mask Mode" and "Poll
Command"). `PicRegisters.dfy`, `PicCommands.dfy` and `PicVectors.dfy` say in port
numbers and binary digits which request is chosen, what each command word does, and
which vector a device's line leads to.

**The processor base class** (`PhysMem.dfy`, `Paging.dfy`, `PagedWrite.dfy`, `PagedAlias.dfy`,
`CpuStack.dfy`, `InterruptQueue.dfy`, `Cpu.dfy`). Two-level page translation (Intel SDM
volume 3A, section 4.3), page-chunked virtual reads and writes that wrap around at
2^32, the stack on top of them, and the credit-limited interrupt queue. The chunked
loops are proved equal to reading and writing byte by byte.

**The XBE logo codec** (`LogoCodec.dfy`, `Xbe.dfy`). The run-length encoder and decoder
with their two record widths, and the exact set of images that survive a round trip.

**The GDB remote protocol** (`GdbCodec.dfy`, `GdbServer.dfy`). Hex and escape coding and
checksummed framing ("Overview" in the GDB Remote Serial Protocol appendix of
Debugging with GDB), over a byte connection that may end or refuse bytes at any point.

**Scatter/gather copies** (`IoVec.dfy`).

**The 16550 UART** (`Fifo.dfy`, `Uart.dfy`, `UartInterrupts.dfy`, `UartTransmit.dfy`, `UartDriver.dfy`,
`UartReceive.dfy`, `UartRegisters.dfy`, `UartStatus.dfy`, `Serial.dfy`). Registers are
8-bit vectors. Interrupt identification is compared with the priority table of section
8.5 of the PC16550D data sheet, the receive FIFO with the bytes delivered, the
transmitter with the bytes written, and what each port reads with what was last
written to it.

**PCI configuration space** (`PciConfig.dfy`, `PciBars.dfy`, `PciGuest.dfy`, `PciDevice.dfy`).
Write masks, write-one-to-clear bits and base address registers (PCI Local Bus
Specification 3.0, section 6.2.5.1), with every offset and mask written out.

The environment enters as parameters: the driver's answer to each byte, whether the
processor can take an interrupt, the bytes of the peer and how many it will take, and
the moments at which timers fire.

## What the code does differently from its documentation

- `CommandRead` of the interrupt controller tests the array `m_ReadRegisterSelect`, not
  its element, and so always returns the in-service register when not polling
  (i8259.cpp:216). The model does the same.
- `VirtualToPhysical` looks at the large-page bit before the valid bit, ors the frame
  number of a large page into the address without masking its low bits, and ignores
  the status of its page-table reads (cpu.cpp:124-143). The model follows the first
  two, and `Paging.AlignedLargePage` says when the result is the architecture's; for
  the third, translations require the entries they read to be mapped.
- The header documents return codes for `Cpu::Interrupt` (cpu.h:217-225); the code
  enqueues the vector whatever the processor's state.
- A logo run of 1024 pixels wraps to length 0 in the 10-bit field (xbe.cpp:718-733).
- A byte 0xFF on the debugger connection is indistinguishable from the end of it, as
  bytes are compared with EOF as signed characters (gdbserver.cpp:632-634, 990).
- The comment on `IoVecTobuffer` asks for an offset below `bytes`; the assertion only
  needs an offset within the buffers (iovec.cpp:70-87).
- The UART's constructor gives each of its two timers the other one's callback
  (serial.cpp:134-135); the model treats both callbacks as events that may occur at any
  time. At a fill level equal to the trigger level `CanReceive` answers 0, not 1 as its
  comment says (serial.cpp:538-545).
- A PCI device stores subsystem numbers for bridges only, where they land in the upper
  half of the prefetchable limit (pci.cpp:57-60).

## Properties that turned out false, with their exact conditions

- UpdateIRQ does not always return: `PicTermination.ReturnsUnlessStorm` and
  `PicReturns.ReturnsIffNoStorm` say exactly when, `PicReturns.StormHappens` gives a run
  from power-on.
- A request that may interrupt is not always handed to the processor at once:
  `PicWaiting.RunLeavesNoneWaiting` names the two writes that can leave one waiting,
  `PicWaiting.SpecialMaskLeavesWaiting` shows that one does.
- Reading back what was written fails for aliased pages given different data:
  `PagedWrite.ReadBackIffAliasesAgree`, with `PagedAlias.AliasedDataIsLost`.
- A logo does not always survive: `LogoCodec.SurvivesIffLongRunsAreBlackTails`, with
  `LogoCodec.WhiteImageIsLost`.
- A packet does not always arrive: `GdbCodec.PacketRoundTrip`.
- The UART's identification goes stale when an enable is written while the holding
  register is full: `UartInterrupts.StepAgreesIff`, with the run
  `UartInterrupts.TwoRefusalsMissAnEnable`; a reset leaves the line high:
  `UartInterrupts.ResetAgreesIff`.
- The UART's data ready bit stays set when the receive FIFO is flushed:
  `UartStatus.StepTruthfulIff` names all such cases, `UartStatus.EnablingMisleads` gives a
  run from power-on.
- The UART loses written bytes when its driver refuses some: `UartTransmit.WriteConservesIff`
  names the losing writes, `UartTransmit.RunConservesIff` carries that through runs. One refusal is
  enough without FIFOs (`UartDriver.OneRefusalLosesAByte`). With FIFOs, the transmitter jams
  and sends zeros once fifteen writes have met a retry (`UartDriver.FillsIff`,
  `UartDriver.JammedForGood`), for a driver that refuses everything at the twentieth
  refusal (`UartDriver.TwentyRefusalsJam`).
- Sizing a base address register gives its size only for multiples of its granularity:
  `PciBars.ProbingMemory`, `PciBars.ProbingIo`.

## Model

| member | source | states |
|---|---|---|
| PicChip.RegisterRoundTrip | src/core/openxbox/hw/basic/i8259.cpp:304-309 | the set of lines that a register holds and the byte the guest reads and writes determine each other |
| PicChip.PriorityIsMinimum | src/core/openxbox/hw/basic/i8259.cpp:355-366 | the rotating search finds the line of least rotated priority in a mask, and 8 exactly for the empty mask |
| PicRegisters.GetIrqIsChosen | src/core/openxbox/hw/basic/i8259.cpp:368-391 | GetIRQ answers a line if and only if that is requested and unmasked, no such line has a smaller rotated place, and every line in service has a larger one, not counting masked lines in special mask mode and line 2 of a master in special fully nested mode; -1 if and only if there is none |
| PicEffects.SettleServes | src/core/openxbox/hw/basic/i8259.cpp:393-441 | over a whole update, exactly the acknowledged lines enter service, exactly the edge-triggered ones of them leave the requests, and the priorities are rotated past the last one if the controller is set up so |
| PicCommands.LineChanges | src/core/openxbox/hw/basic/i8259.cpp:115-146 | after a change of a device line it is requested exactly if it is high and was requested before, or is level triggered, or has just risen, and was not taken by an acknowledgement; every other line only loses its request by one |
| PicCommands.EndOfInterrupt | src/core/openxbox/hw/basic/i8259.cpp:251-293 | each command word 2 retires exactly the line it is for (the named one, or the first in rotated order of those in service), makes exactly the line it names or retires last in order, and changes nothing else but by acknowledgements |
| PicCommands.Ocw3Written | src/core/openxbox/hw/basic/i8259.cpp:235-249 | a command word 3 changes the poll flag, the read selection and the special mask mode as its bits say, and nothing else |
| PicCommands.MaskReadsBack | src/core/openxbox/hw/basic/i8259.cpp:296-309 | a mask that is written reads back and masks exactly the lines whose bit is set |
| PicCommands.ServiceReads | src/core/openxbox/hw/basic/i8259.cpp:211-221 | without a poll the command port reads the lines in service as binary digits |
| PicCommands.PollReads | src/core/openxbox/hw/basic/i8259.cpp:410-420 | a polled read on either port gives 0x80 + line for the chosen line, or 0 exactly if there is none |
| PicCommands.PollServes | src/core/openxbox/hw/basic/i8259.cpp:410-420 | a polled read ends the poll and acknowledges the chosen line first, or changes nothing else if there is none |
| PicCommands.LevelReadsBack | src/core/openxbox/hw/basic/i8259.cpp:164-193 | in every run from power-on the level registers read back what is written under the masks 0xF8 and 0xDE |
| PicCommands.OtherPorts | src/core/openxbox/hw/basic/i8259.cpp:148-198 | all other ports are refused and change nothing |
| PicVectors.Initialises | src/core/openxbox/hw/basic/i8259.cpp:223-328 | the three or four initialisation words clear a controller and set its vector base, automatic end of interrupt and special fully nested mode from their bits, whatever it was doing |
| PicVectors.EdgeDeliversVector | src/core/openxbox/hw/basic/i8259.cpp:200-441 | after the second initialisation word v of its controller and any run that does not initialise it again, a device line n that rises while all is idle gives the processor exactly the vector v - v % 8 + n % 8, by one acknowledgement |
| PicTermination.EndsWithinSixteenAcks | src/core/openxbox/hw/basic/i8259.cpp:330-441 | from any state with an edge-triggered cascade line and no unmasked level-triggered request on an auto-EOI controller, an update returns after at most 16 acknowledgements |
| PicTermination.RoundsAreAcks | src/core/openxbox/hw/basic/i8259.cpp:393-408 | the depth of the recursion is the number of acknowledgements it makes |
| PicTermination.ReturnsUnlessStorm | src/core/openxbox/hw/basic/i8259.cpp:330-441 | an update returns if and only if there is no storm, and then within 16 acknowledgements, for every state of the registers with an edge-triggered cascade line and requests within the previous levels, in every mode, whether or not the slave backs the cascade request |
| PicReturns.ReturnsIffNoStorm | src/core/openxbox/hw/basic/i8259.cpp:174-209 | each operation on valid registers, also by a device on line 2, returns if and only if its update meets no storm, and then makes at most 16 acknowledgements beside a poll's own |
| PicReturns.CarefulRunsReturn | src/core/openxbox/hw/basic/i8259.cpp:148-209 | every operation of every run returns, whatever the devices do, if the guest gives no level-triggered line to an auto-EOI controller |
| PicReturns.EdgeOnlyRunsReturn | src/core/openxbox/hw/basic/i8259.cpp:188-193 | from power-on, every sequence of operations that makes no line level triggered runs to its end, in all modes |
| PicReturns.StormHappens | src/core/openxbox/hw/basic/i8259.cpp:393-408 | five writes after power-on that return, and after which the rise of line 3 does not |
| PicReturns.DeviceOnCascadeLineIsSpurious | src/core/openxbox/hw/basic/i8259.cpp:344-349 | after power-on, a device that raises line 2 makes the slave's spurious vector be delivered with nothing acknowledged |
| PicDelivery.SettleDrains | src/core/openxbox/hw/basic/i8259.cpp:422-441 | when an update of the master returns, the master has nothing to serve, or only a cascade request the slave no longer has a line for |
| PicDelivery.SettleAccounts | src/core/openxbox/hw/basic/i8259.cpp:330-353 | every acknowledgement sends exactly one vector, base + line, in the reverse order of the acknowledgements, and beyond those there is at most one spurious slave vector |
| PicDelivery.SettleKeepsSetup | src/core/openxbox/hw/basic/i8259.cpp:393-441 | delivering interrupts changes none of the registers that the guest sets up |
| PicRuns.RunKeepsValid | src/core/openxbox/hw/basic/i8259.cpp:76-198 | over every run, requests stay within the previous levels, the cascade line stays edge triggered and vector bases stay bytes that are multiples of 8 |
| PicRuns.RunKeepsBacked | src/core/openxbox/hw/basic/i8259.cpp:87-146 | if no device drives line 2 and the slave's special mask is left alone, after every operation the slave's output says whether it has a line to serve, and a cascade request or a remembered high cascade line implies it, across resets and polls |
| PicRuns.BackedSettleIsExact | src/core/openxbox/hw/basic/i8259.cpp:330-353 | from such a state an update takes neither spurious branch, serves every deliverable request and sends the vectors of those and no others |
| PicRuns.StepAccounts | src/core/openxbox/hw/basic/i8259.cpp:211-221 | one operation's acknowledgements are the polled line, if any, and then exactly those whose vectors are sent |
| PicRuns.RunConserves | src/core/openxbox/hw/basic/i8259.cpp:393-441 | over a run, acknowledgements equal vectors sent plus poll results |
| PicWaiting.RunLeavesNoneWaiting | src/core/openxbox/hw/basic/i8259.cpp:211-328 | over every disciplined run, after every operation the master has no request left that may interrupt, unless an operation was one of two writes that change the special mask mode or special fully nested mode of the master without an update |
| PicWaiting.SpecialMaskLeavesWaiting | src/core/openxbox/hw/basic/i8259.cpp:235-249 | turning special mask mode on can leave such a request waiting |
| PicHistory.RunConservesEdges | src/core/openxbox/hw/basic/i8259.cpp:115-146 | for a line that stays edge triggered, acknowledgements plus the pending request never exceed the rising edges latched |
| PicHistory.RunIsNested | src/core/openxbox/hw/basic/i8259.cpp:355-408 | over every run in plain modes each acknowledged line strictly outranks everything in service on its controller |
| PicHistory.NonSpecificEoiRetiresLatest | src/core/openxbox/hw/basic/i8259.cpp:258-275 | in such runs a non-specific end of interrupt retires exactly the line acknowledged most recently |
| PicHistory.PowerOnStarts | src/core/openxbox/hw/basic/i8259.cpp:76-105 | the state after power-on satisfies the invariants that those runs start from |
| PicCommands.PowerOnIsBlank | src/core/openxbox/hw/basic/i8259.cpp:76-105 | after power-on nothing is requested, masked, in service or turned on, and line 0 is first |
| PicWaiting.PowerOnLeavesNoneWaiting | src/core/openxbox/hw/basic/i8259.cpp:76-105 | and no request waits |
| I8259Device.I8259.constructor | src/core/openxbox/hw/basic/i8259.cpp:69-71 | allocates both controllers with an empty history, which Reset then brings to the power-on state |
| I8259Device.I8259.GetPriority | src/core/openxbox/hw/basic/i8259.cpp:355-366 | the loop over rotated lines computes the priority of a mask |
| I8259Device.I8259.GetIRQ | src/core/openxbox/hw/basic/i8259.cpp:368-391 | computes the line to serve, the chosen one of PicRegisters.GetIrqIsChosen, without changing anything |
| I8259Device.I8259.SetIRQ | src/core/openxbox/hw/basic/i8259.cpp:115-146 | latches an edge or level and settles to the specified state |
| I8259Device.I8259.UpdateIRQ | src/core/openxbox/hw/basic/i8259.cpp:422-441 | the mutual recursion ends in the specified settled state whenever it ends at all |
| I8259Device.I8259.GetCurrentIRQ | src/core/openxbox/hw/basic/i8259.cpp:330-353 | acknowledges the line, recurses, and returns the vector that the specification sends |
| I8259Device.I8259.AcknowledgeIRQ | src/core/openxbox/hw/basic/i8259.cpp:393-408 | moves a line from requested to in service, or rotates, and recurses |
| I8259Device.I8259.ResetPic | src/core/openxbox/hw/basic/i8259.cpp:87-105 | clears one controller, including the previous levels, and updates |
| I8259Device.I8259.Reset | src/core/openxbox/hw/basic/i8259.cpp:76-85 | reaches the power-on state |
| I8259Device.I8259.HandleIRQ | src/core/openxbox/hw/basic/i8259.cpp:200-209 | one change of a device line is the specified step, whose effect on requests is PicCommands.LineChanges and whose vector is PicVectors.EdgeDeliversVector |
| I8259Device.I8259.Poll | src/core/openxbox/hw/basic/i8259.cpp:410-420 | acknowledges the line it reports, with bit 7 set, or reports 0 |
| I8259Device.I8259.CommandRead | src/core/openxbox/hw/basic/i8259.cpp:211-221 | polls, or reads the in-service register |
| I8259Device.I8259.CommandWrite | src/core/openxbox/hw/basic/i8259.cpp:223-294 | initialisation, OCW3 and OCW2 commands lead to the specified state |
| I8259Device.I8259.DataRead | src/core/openxbox/hw/basic/i8259.cpp:296-302 | polls, or reads the mask register |
| I8259Device.I8259.DataWrite | src/core/openxbox/hw/basic/i8259.cpp:304-328 | mask writes and the initialisation sequence lead to the specified state |
| I8259Device.I8259.IORead | src/core/openxbox/hw/basic/i8259.cpp:148-172 | a port read is the specified step and gives the specified value, or fails for other ports |
| I8259Device.I8259.IOWrite | src/core/openxbox/hw/basic/i8259.cpp:174-198 | a port write is the specified step, or fails for other ports |
| Bytes.WordRoundTrip | src/cpu-module/openxbox/cpu.cpp:355-382 | a 32-bit word survives being stored and loaded as four bytes |
| PhysMem.StoreChangesOneByte | src/cpu-module/openxbox/cpu.cpp:100-110 | storing a byte changes that byte and no read that does not include it, even with overlapping ranges |
| PhysMem.ReadFindsFirst | src/cpu-module/openxbox/cpu.cpp:88-98 | a read gives the bytes of the first range that holds all of them, and fails if and only if no range does |
| PhysMem.ReadWithinPage | src/cpu-module/openxbox/cpu.cpp:88-98 | with page-aligned ranges a read within a page equals its bytes read one by one, in success and in value |
| PhysMem.WriteWithinPage | src/cpu-module/openxbox/cpu.cpp:100-110 | a write within a page equals its bytes written one by one |
| Paging.SmallPage | src/cpu-module/openxbox/cpu.cpp:117-153 | with bit 7 of the directory entry at cr3 + 4 * (vaddr / 2^22) clear, the translation is the frame of the table entry vaddr / 2^12 % 2^10 with the low 12 bits of the address if bit 0 of both entries is set, else none |
| Paging.LargePage | src/cpu-module/openxbox/cpu.cpp:122-130 | with bit 7 set, valid or not, the translation has the top ten bits of the entry, the low twelve of the address, and the bitwise or of the two between |
| Paging.AlignedLargePage | src/cpu-module/openxbox/cpu.cpp:126-130 | a large page with an aligned frame translates to base plus offset within 4 MB, as the architecture says |
| Paging.TranslationInRange | src/cpu-module/openxbox/cpu.cpp:114-153 | every translation is a 32-bit physical address |
| Paging.TranslateWithinPage | src/cpu-module/openxbox/cpu.cpp:114-153 | addresses of one 4 KB page translate alike, by the same displacement, for small and large pages |
| Paging.ReadPiece | src/cpu-module/openxbox/cpu.cpp:163-181 | one translation and one physical read of a piece within a page give each byte at that byte's own translation |
| PagedWrite.WritePiece | src/cpu-module/openxbox/cpu.cpp:197-215 | one translation and one physical write of a piece equal writing its bytes one by one |
| PagedWrite.WrittenByte | src/cpu-module/openxbox/cpu.cpp:189-221 | after a virtual write each physical byte holds the last byte written to it, or what it held before |
| PagedWrite.WriteKeepsOutside | src/cpu-module/openxbox/cpu.cpp:189-221 | no physical byte outside the range changes |
| PagedWrite.WriteKeepsRange | src/cpu-module/openxbox/cpu.cpp:189-221 | a write clear of the paging structures leaves the range mapped and backed |
| PagedWrite.ReadBackIffAliasesAgree | src/cpu-module/openxbox/cpu.cpp:155-221 | reading back a written range returns the data if and only if bytes that share a physical byte were given equal values |
| PagedAlias.AliasedDataIsLost | src/cpu-module/openxbox/cpu.cpp:126-130 | a memory in which two virtual pages share a frame, and every data for them that differs in its first bytes is not read back |
| CpuStack.PushesThenPops | src/cpu-module/openxbox/cpu.cpp:355-382 | n pushes and n pops on an unaliased stack return the values reversed and restore ESP, also across pages and the end of the address space |
| CpuStack.PushStores | src/cpu-module/openxbox/cpu.cpp:355-362 | a push stores the word lowest byte first in the four bytes below ESP and moves ESP by four, around 2^32 |
| InterruptQueue.CreditsPayForInjections | src/cpu-module/openxbox/cpu.cpp:415-459 | over every run the cost of the injections never exceeds the initial credit plus what the runs earned, and credits never wrap |
| InterruptQueue.InjectionsAreThrottled | src/cpu-module/openxbox/cpu.cpp:415-459 | n runs from full credit inject at most (max + n * inc) / cost interrupts |
| InterruptQueue.FirstInFirstOut | src/cpu-module/openxbox/cpu.cpp:54-62 | injected followed by pending is always the interrupts in the order enqueued |
| InterruptQueue.EveryRunIsUsed | src/cpu-module/openxbox/cpu.cpp:415-459 | over every run, one interrupt is injected for each call with something pending, a ready processor and credit for the cost after earning, and one interrupt window requested for each call with something pending and none ready |
| InterruptQueue.IdleRunsFill | src/cpu-module/openxbox/cpu.cpp:415-419 | with nothing pending, n calls raise the credit by n but not beyond the maximum |
| InterruptQueue.NoStarvation | src/cpu-module/openxbox/cpu.cpp:415-459 | while injection is possible, an interrupt with k ahead of it is injected within (k + 1) * ceil(cost / inc) runs |
| InterruptQueue.ShippedRates | src/cpu-module/openxbox/cpu.h:21-29 | both sets of constants meet the conditions of the queue theorems, with the bounds that follow for them |
| CpuDevice.Cpu.Interrupt | src/cpu-module/openxbox/cpu.cpp:54-62 | enqueues the vector |
| CpuDevice.Cpu.HandleInterruptQueue | src/cpu-module/openxbox/cpu.cpp:415-431 | earns credit, then injects or asks for a window, as specified |
| CpuDevice.Cpu.InjectPendingInterrupt | src/cpu-module/openxbox/cpu.cpp:433-459 | spends credit on the oldest interrupt, or does nothing |
| CpuDevice.Cpu.AddRange | src/cpu-module/openxbox/cpu.cpp:80-83 | a RAM or ROM range is searched after the ones mapped before it |
| CpuDevice.Cpu.MemRead | src/cpu-module/openxbox/cpu.cpp:88-98 | copies from the first range that holds all the bytes, or fails and copies nothing |
| CpuDevice.Cpu.MemWrite | src/cpu-module/openxbox/cpu.cpp:100-110 | writes to the first range that holds all the bytes, or fails and writes nothing |
| CpuDevice.Cpu.VirtualToPhysical | src/cpu-module/openxbox/cpu.cpp:114-153 | computes the translation, which is that of Paging.SmallPage or Paging.LargePage |
| CpuDevice.Cpu.VMemRead | src/cpu-module/openxbox/cpu.cpp:155-187 | succeeds exactly if every byte translates to a mapped byte, and then each byte is the one at its own translation; on failure a prefix up to a page boundary was copied |
| CpuDevice.Cpu.VMemWrite | src/cpu-module/openxbox/cpu.cpp:189-221 | succeeds exactly if every byte translates to a mapped byte; the memory is that of writing byte by byte, on failure that of a prefix up to a page boundary |
| CpuDevice.Cpu.Push | src/cpu-module/openxbox/cpu.cpp:355-362 | stores the word below ESP and moves ESP, or fails and leaves ESP |
| CpuDevice.Cpu.Pop | src/cpu-module/openxbox/cpu.cpp:375-382 | returns the word at ESP and moves ESP, or fails and leaves ESP |
| LogoCodec.RecordRoundTrip | src/core/openxbox/xbe.h:330-348 | both record layouts decode to what was encoded, up to the truncation of the 10-bit length |
| LogoCodec.RecordLayout | src/core/openxbox/xbe.h:330-348 | the bits of the two record types: bit 0 and length 1-3 and shade 4-7, or bit 1 and length 2-11 and shade 12-15; any other byte is empty, and a 16-bit record cut off by the end is none |
| LogoCodec.DecodeEncode | src/core/openxbox/xbe.cpp:712-737 | decoding encoded records, after any prefix, gives their runs |
| LogoCodec.LengthsAddUp | src/core/openxbox/xbe.cpp:712-737 | record lengths sum to the pixels but the first, and the encoding is no longer than that |
| LogoCodec.SurvivesIffLongRunsAreBlackTails | src/core/openxbox/xbe.cpp:705-817 | for every image, decoding its encoding gives the high nibbles of all pixels but the first if and only if every run of 1024 equal pixels is black and followed by black only |
| LogoCodec.WhiteImageIsLost | src/core/openxbox/xbe.cpp:718-733 | a white image does not survive |
| XbeImage.Xbe.EncodeLogo | src/core/openxbox/xbe.cpp:710-738 | the encoding loops fill the buffer with the encoding of the image and never overrun it |
| XbeImage.Xbe.GetLogoBitmap | src/core/openxbox/xbe.cpp:848-871 | shrinks the logo and finds it exactly if there is one in the headers of at least that size, else changes nothing |
| XbeImage.Xbe.HasRoomMeans | src/core/openxbox/xbe.cpp:850-861 | the condition under which GetLogoBitmap finds a logo, and its offset, in 32-bit arithmetic on the header fields |
| XbeImage.Xbe.ImportLogoBitmap | src/core/openxbox/xbe.cpp:705-756 | stores the encoding and nothing else if there is room, else sets an error and keeps the file |
| XbeImage.Xbe.ExportLogoBitmap | src/core/openxbox/xbe.cpp:775-817 | shows the decoded logo over a black image, or black if there is none or an error is pending |
| XbeImage.ImportThenExport | src/core/openxbox/xbe.cpp:705-817 | the two operations together show the high nibbles of the image if and only if its long runs are black tails |
| GdbCodec.HexRoundTrip | src/core/openxbox/gdbserver.cpp:698-754 | hex decoding inverts hex encoding for every byte string |
| GdbCodec.HexDigits | src/core/openxbox/gdbserver.cpp:698-713 | each byte is two lower-case digits, high half first |
| GdbCodec.HexValues | src/core/openxbox/gdbserver.cpp:722-754 | two bytes are decoded to a value if and only if they are its digits, in either case |
| GdbCodec.BinRoundTrip | src/core/openxbox/gdbserver.cpp:763-823 | unescaping inverts escaping for every byte string |
| GdbCodec.EscapeCodes | src/core/openxbox/gdbserver.cpp:763-788 | the four special bytes are sent as '}' and 0x04, 0x03, 0x5D or 0x0A, every other byte as itself |
| GdbCodec.EscapeAppend | src/core/openxbox/gdbserver.cpp:763-788 | data is escaped byte by byte |
| GdbCodec.EncodedIsFrameable | src/core/openxbox/gdbserver.cpp:763-788 | escaped data has no packet mark in it, and '}' only in front of an escaped byte |
| GdbCodec.ChecksumIsSum | src/core/openxbox/gdbserver.cpp:540-551 | the checksum of nothing is 0, of one byte that byte, and of a concatenation the sum modulo 256 |
| GdbCodec.FrameEnds | src/core/openxbox/gdbserver.cpp:562-601 | a frame is '$', the data, '#' and the two lower-case digits of the checksum, high one first |
| GdbCodec.OkIsFramed | src/core/openxbox/gdbserver.cpp:540-601 | the reply OK is sent as $OK#9a |
| GdbCodec.ReceiveWithChecksum | src/core/openxbox/gdbserver.cpp:610-685 | after noise, a body is received and answered '+' if its checksum is the announced one, else refused with '-', and read to its end either way |
| GdbCodec.PacketRoundTrip | src/core/openxbox/gdbserver.cpp:562-685 | a framed packet is received as sent, with the rest unread, if and only if it fits and has neither '#' nor 0xFF in it |
| GdbCodec.ChangedByteIsRefused | src/core/openxbox/gdbserver.cpp:673-680 | changing one body byte is always answered '-' |
| GdbCodec.TooLongIsGivenUp | src/core/openxbox/gdbserver.cpp:633-650 | a body one byte longer than the buffer is given up at that byte, unanswered |
| GdbCodec.BadDigitsAreGivenUp | src/core/openxbox/gdbserver.cpp:667-671 | a checksum not written in hex digits is consumed and given up, unanswered |
| GdbCodec.EndIsGivenUp | src/core/openxbox/gdbserver.cpp:619-650 | a byte 0xFF before or within a packet ends its reception there, unanswered |
| GdbCodec.EscapedPacketRoundTrip | src/core/openxbox/gdbserver.cpp:562-823 | escaped data reaches the other end if and only if it fits and has no 0xFF in it |
| GdbConnection.GdbServer.EncHex | src/core/openxbox/gdbserver.cpp:698-713 | fills the buffer with the hex digits, or reports that they do not fit |
| GdbConnection.GdbServer.DecHex | src/core/openxbox/gdbserver.cpp:722-754 | succeeds exactly for hex digits of the right length, with the bytes they stand for |
| GdbConnection.GdbServer.EncBin | src/core/openxbox/gdbserver.cpp:763-788 | fills the buffer with the escaped data exactly if it fits |
| GdbConnection.GdbServer.DecBin | src/core/openxbox/gdbserver.cpp:797-823 | decodes exactly the data that ends outside an escape and fits |
| GdbConnection.GdbServer.ChecksumOf | src/core/openxbox/gdbserver.cpp:540-551 | computes the checksum, which is the sum of GdbCodec.ChecksumIsSum |
| GdbConnection.GdbServer.Write | src/core/openxbox/gdbserver.cpp:962-971 | sends all of the bytes, or as many as the peer takes |
| GdbConnection.GdbServer.Read | src/core/openxbox/gdbserver.cpp:980-997 | refuses a length beyond the buffer and reads nothing, else returns the next bytes, or stops at the end or at a byte 0xFF |
| GdbConnection.GdbServer.RecvAck | src/core/openxbox/gdbserver.cpp:512-532 | tells '+', '-' and anything else apart, consuming one byte |
| GdbConnection.GdbServer.SendPacket | src/core/openxbox/gdbserver.cpp:562-601 | sends the frame, cut where the peer stops taking bytes, and reports the answer only for a whole frame |
| GdbConnection.GdbServer.RecvPacket | src/core/openxbox/gdbserver.cpp:610-685 | the packet, the unread rest and the answer are those of the specified receiver, for every input and buffer |
| ScatterGather.IOVector.IoVecAdd | src/common/openxbox/iovec.cpp:57-68 | appends a buffer, keeps the total, and grows the space when it is full |
| ScatterGather.IOVector.IoVecReset | src/common/openxbox/iovec.cpp:50-55 | empties the vector |
| ScatterGather.IoVecToBuffer | src/common/openxbox/iovec.cpp:73-89 | copies exactly the slice of the joined buffers from the offset on, and nothing else |
| ScatterGather.IoVecFromBuffer | src/common/openxbox/iovec.cpp:93-109 | overwrites exactly that slice, for buffers that do not alias |
| ScatterGather.ScatterThenGather | src/common/openxbox/iovec.cpp:73-109 | scattering and then gathering at the same offset returns the bytes transferred |
| RingFifo.Fifo.Push | src/core/openxbox/util/fifo.h:44-53 | appends to the queued sequence unless it is full |
| RingFifo.Fifo.Pop | src/core/openxbox/util/fifo.h:55-65 | takes the first of the queued sequence unless it is empty, across wraparound |
| RingFifo.Fifo.Discard | src/core/openxbox/util/fifo.h:67-76 | drops the first of the queued sequence unless it is empty |
| RingFifo.Fifo.Clear | src/core/openxbox/util/fifo.h:19-19 | empties the queue wherever the head stands |
| UartInterrupts.PendingIsForemost | src/core/openxbox/hw/basic/serial.cpp:600-619 | the if-chain of UpdateIRQ yields the code of the enabled source of highest priority, and "none" exactly if there is none |
| UartInterrupts.StepAgreesIff | src/core/openxbox/hw/basic/serial.cpp:208-463 | an operation keeps identification and line in agreement with the foremost source, whatever the driver answers, if and only if it is not an enable write, with the holding register full, that changes the foremost source |
| UartInterrupts.RunAgrees | src/core/openxbox/hw/basic/serial.cpp:208-629 | with a driver that takes every byte, the identification and the line agree with the foremost source throughout every run |
| UartInterrupts.PowerOnAgrees | src/core/openxbox/hw/basic/serial.cpp:127-143 | the constructed UART agrees |
| UartInterrupts.ResetAgreesIff | src/core/openxbox/hw/basic/serial.cpp:174-196 | a reset UART agrees if and only if its line was not high |
| UartInterrupts.TwoRefusalsMissAnEnable | src/core/openxbox/hw/basic/serial.cpp:338-361 | a run of four operations after which an asserted, enabled source is not reported |
| UartRegisters.ReadsBack | src/core/openxbox/hw/basic/serial.cpp:208-463 | in every run from power-on, whatever the driver does, ports 1, 3, 4 and 7 and the divisor read what was last written under their masks, port 2 shows in its high half whether the FIFOs are on, and port 6 the modem outputs bit by bit in loopback and 0xB0 outside |
| UartRegisters.BreakFollowsLineControl | src/core/openxbox/hw/basic/serial.cpp:412-422 | in every run the driver was last told of the break bit that port 3 holds |
| UartRegisters.DivisorIsBothBytes | src/core/openxbox/hw/basic/serial.cpp:316-342 | the two bytes of the divisor latch can be written in either order |
| UartStatus.TransmitterReadsEmpty | src/core/openxbox/hw/basic/serial.cpp:278-285 | in every run from power-on with a driver that takes every byte, port 5 reads with 0x60 set |
| UartStatus.RefusedByteReads | src/core/openxbox/hw/basic/serial.cpp:475-509 | after a first refused byte the holding register reads as empty and the transmitter as not |
| UartStatus.IdentificationReads | src/core/openxbox/hw/basic/serial.cpp:265-271 | in such runs the low half of port 2 is the code of the foremost source, or 1 exactly if there is none |
| UartStatus.StepTruthfulIff | src/core/openxbox/hw/basic/serial.cpp:208-585 | with FIFOs on, an operation keeps "data ready says whether the receive FIFO holds something" if and only if it is not an empty delivery to an empty FIFO or a flush, by command or by turning the FIFOs on, while data is ready |
| UartStatus.DataReadyReads | src/core/openxbox/hw/basic/serial.cpp:278-285 | so in every run from power-on without those, port 5 has 0x01 set exactly while the receive FIFO holds something |
| UartStatus.EnablingMisleads | src/core/openxbox/hw/basic/serial.cpp:371-380 | a run of two operations after which data reads as ready and the FIFO is empty |
| UartStatus.StatusReadClears | src/core/openxbox/hw/basic/serial.cpp:278-285 | reading port 5 gives the line status and clears its break and overrun bits and no others |
| UartStatus.BufferReadTakes | src/core/openxbox/hw/basic/serial.cpp:212-256 | reading the buffer gives and takes the front of the FIFO, or gives the buffer register, and clears data ready and break exactly when nothing is left |
| UartStatus.ByteIsLatched | src/core/openxbox/hw/basic/serial.cpp:569-576 | without FIFOs an arriving byte is latched and sets data ready, and overrun if the last one was not read |
| UartStatus.ModemStatusClears | src/core/openxbox/hw/basic/serial.cpp:293-303 | outside loopback, reading port 6 gives the modem status and clears its delta bits |
| UartStatus.BreakEnters | src/core/openxbox/hw/basic/serial.cpp:579-585 | a break queues a zero byte if there is room and sets data ready, break, and overrun if there is not |
| UartStatus.LoopbackEchoes | src/core/openxbox/hw/basic/serial.cpp:498-501 | in loopback a written byte is received, or overruns a full FIFO, and the driver gets nothing |
| UartStatus.ControlFlushes | src/core/openxbox/hw/basic/serial.cpp:363-409 | a write to port 2 empties exactly the FIFOs it names, or both when it turns them on or off |
| UartStatus.HolderInterrupt | src/core/openxbox/hw/basic/serial.cpp:265-361 | the holding register interrupt becomes pending when a byte has left and when interrupts are enabled, and ends when the identification that names it is read |
| UartStatus.TimeoutBecomesPending | src/core/openxbox/hw/basic/serial.cpp:593-598 | the timeout becomes pending exactly if the FIFO holds something, until the buffer is read |
| UartStatus.ResetRegisters | src/core/openxbox/hw/basic/serial.cpp:174-196 | the value that each register has after a reset |
| UartTransmit.WriteConservesIff | src/core/openxbox/hw/basic/serial.cpp:313-533 | a byte written to the holding register, with any answer of the driver, leaves the bytes taken and waiting, in order, as those that waited and the new one if and only if it is not one of the losing writes: an idle transmitter about to fill the FIFO, a busy one with a full FIFO, an occupied holding register without FIFOs, or a fifth refusal |
| UartTransmit.StepConservesIff | src/core/openxbox/hw/basic/serial.cpp:208-629 | no other operation loses or reorders a byte |
| UartTransmit.RunConservesIff | src/core/openxbox/hw/basic/serial.cpp:475-533 | over every run of any operations and any answers, without flush or loopback, all stages conserve the bytes if and only if no write in it is a losing one |
| UartDriver.StepKeepsSent | src/core/openxbox/hw/basic/serial.cpp:313-337 | with a driver that takes every byte, nothing waits to be sent between operations, and each byte written is the byte offered |
| UartDriver.RunSendsWhatIsWritten | src/core/openxbox/hw/basic/serial.cpp:475-533 | over every run such a driver is handed exactly the bytes written outside loopback, in order |
| UartDriver.FillsIff | src/core/openxbox/hw/basic/serial.cpp:322-336 | from an empty FIFO, writes with any answers fill it if and only if fifteen of those before the last were made during a retry |
| UartDriver.FewRefusalsNeverJam | src/core/openxbox/hw/basic/serial.cpp:502-509 | with fewer than fifteen refusals the FIFO never fills |
| UartDriver.TwentyRefusalsJam | src/core/openxbox/hw/basic/serial.cpp:475-516 | a driver that refuses every byte fills the FIFO with the twentieth refusal and not before, and from then on zeros are offered, however willing it becomes |
| UartDriver.OneRefusalLosesAByte | src/core/openxbox/hw/basic/serial.cpp:491-495 | without FIFOs one refusal is enough for a written byte never to be offered |
| UartDriver.JammedForGood | src/core/openxbox/hw/basic/serial.cpp:478-480 | a full transmit FIFO stays full while bytes are written, and the driver is offered zeros, whatever it answers |
| UartReceive.PutAllKeepsFront | src/core/openxbox/hw/basic/serial.cpp:465-473 | the FIFO keeps the first 16 of what is put into it, and overrun is flagged exactly if something was dropped |
| UartReceive.CanReceiveFits | src/core/openxbox/hw/basic/serial.cpp:535-554 | what CanReceive allows fits in the FIFO |
| UartStatus.CanReceiveReachesTrigger | src/core/openxbox/hw/basic/serial.cpp:535-554 | in FIFO mode the driver may deliver exactly up to the trigger level 1, 4, 8 or 14 that the control register sets, then one byte at a time up to 16 |
| UartStatus.CanReceiveOne | src/core/openxbox/hw/basic/serial.cpp:535-554 | without FIFOs it may deliver one byte, exactly while no data is ready |
| UartReceive.RunLosesNothing | src/core/openxbox/hw/basic/serial.cpp:212-256 | over runs in FIFO mode without flush, break or loopback and with a driver that respects CanReceive, bytes read followed by the FIFO equal its first contents followed by the bytes delivered, and overrun is never set; the transmitter may do anything |
| SerialDevice.Serial.constructor | src/core/openxbox/hw/basic/serial.cpp:127-143 | constructs the power-on state |
| SerialDevice.Serial.Reset | src/core/openxbox/hw/basic/serial.cpp:174-196 | reaches the reset state, which keeps the FIFO control register, the pending timeout and the line |
| SerialDevice.Serial.UpdateIRQ | src/core/openxbox/hw/basic/serial.cpp:600-629 | sets identification and line as specified |
| SerialDevice.Serial.RecvFifoPut | src/core/openxbox/hw/basic/serial.cpp:465-473 | queues a byte or flags an overrun |
| SerialDevice.Serial.CanReceive | src/core/openxbox/hw/basic/serial.cpp:535-554 | computes how many bytes the driver may deliver |
| SerialDevice.Serial.Receive | src/core/openxbox/hw/basic/serial.cpp:556-577 | receives bytes into the FIFO, or the first one into the buffer register |
| SerialDevice.Serial.ReceiveBreak | src/core/openxbox/hw/basic/serial.cpp:579-585 | receives a break |
| SerialDevice.Serial.FifoTimeoutInterrupt | src/core/openxbox/hw/basic/serial.cpp:593-598 | makes the character timeout pending if the FIFO holds something |
| SerialDevice.Serial.Transmit | src/core/openxbox/hw/basic/serial.cpp:475-533 | transmits, retries or loops back as specified, and hands the driver exactly the specified byte |
| SerialDevice.Serial.IORead | src/core/openxbox/hw/basic/serial.cpp:208-311 | a register read gives the specified state and value, the latter as UartRegisters.ReadsBack, UartStatus.TransmitterReadsEmpty, UartStatus.IdentificationReads and UartStatus.DataReadyReads say |
| SerialDevice.Serial.IOWrite | src/core/openxbox/hw/basic/serial.cpp:313-463 | a register write leads to the specified state and hands the driver exactly the specified bytes |
| PciConfig.InitialMasksAreDisjoint | src/core/openxbox/hw/pci/pci.cpp:71-121 | in every constructed device no bit is both writable and write-one-to-clear |
| PciConfig.Constructed | src/core/openxbox/hw/pci/pci.cpp:36-127 | every constructed device, of any header type, satisfies the invariant on its masks |
| PciConfig.Written | src/core/openxbox/hw/pci/pci.cpp:262-269 | every in-range write keeps that invariant, so the assertion in WriteConfig never fires |
| PciConfig.HistoryDecidesByte | src/core/openxbox/hw/pci/pci.cpp:262-269 | after any sequence of writes of any width, a byte's writable bits are those last written, its write-one-to-clear bits are those never written as one, and all others are unchanged |
| PciGuest.IdentityReads | src/core/openxbox/hw/pci/pci.cpp:36-60 | the numbers of a new device stand at their offsets, lowest byte first, the subsystem numbers for bridges only, and all other bytes are zero |
| PciGuest.GuestWrites | src/core/openxbox/hw/pci/pci.cpp:71-121 | byte by byte and bit by bit, what a write of any width changes: command bits 0x0507, status bits 0xF900 cleared by ones, cache line size, interrupt line, everything from 0x40 on, and of a bridge its bus numbers, windows and control bits |
| PciGuest.FreeRegisters | src/core/openxbox/hw/pci/pci.cpp:216-243 | a plain device can register six base address registers, a bridge two, any other header none |
| PciBars.RegisteredIsValid | src/core/openxbox/hw/pci/pci.cpp:216-256 | registering a base address register keeps the masks disjoint |
| PciBars.RegisteringMakesBar | src/core/openxbox/hw/pci/pci.cpp:249-253 | a registered one has its size, its address mask and its type bits |
| PciBars.RegisteringKeepsBar | src/core/openxbox/hw/pci/pci.cpp:235-243 | further registrations, also attempts to register it again, leave it alone |
| PciBars.RunKeepsBar | src/core/openxbox/hw/pci/pci.cpp:262-269 | no sequence of configuration writes changes its size or its type bits |
| PciBars.ProbingMemory | src/core/openxbox/hw/pci/pci.cpp:249-253 | writing ones and reading back gives a memory register's size if and only if that is a multiple of 16 |
| PciBars.ProbingIo | src/core/openxbox/hw/pci/pci.cpp:249-253 | the same for I/O registers and multiples of 4 |
| PciBars.MemoryBarDecodes | src/core/openxbox/hw/pci/pci.cpp:205-210 | for a power-of-two size the base is always aligned to it, and the register decodes exactly the block at the base, or nothing if that ends at 2^32 |
| PciBars.IoBarDecodes | src/core/openxbox/hw/pci/pci.cpp:163-168 | the same for I/O registers |
| PciBars.ProbedDecodesNothing | src/core/openxbox/hw/pci/pci.cpp:205-210 | while it holds the probe value a memory register decodes no address |
| PciBars.WritingBase | src/core/openxbox/hw/pci/pci.cpp:262-269 | a written base is taken as it is if and only if it is aligned to the size |
| PciGuest.PlacedMemoryDecodes | src/core/openxbox/hw/pci/pci.cpp:174-269 | once the guest has written an aligned base to the register at 0x10 + 4 * i, exactly the addresses of the block there are decoded |
| PciGuest.PlacedIoDecodes | src/core/openxbox/hw/pci/pci.cpp:132-269 | the same for I/O registers |
| PciDevice.PCIDevice.constructor | src/core/openxbox/hw/pci/pci.cpp:36-127 | fills identity, write mask and write-one-to-clear mask as specified for every header type |
| PciDevice.PCIDevice.WriteConfig | src/core/openxbox/hw/pci/pci.cpp:262-269 | the byte loop writes exactly the specified bytes under the masks |
| PciDevice.WriteThenRead | src/core/openxbox/hw/pci/pci.cpp:258-269 | reading after writing gives the written value in the writable bits, zeros where ones were written to write-one-to-clear bits, and the old value elsewhere |
| PciDevice.SizeMemoryBar | src/core/openxbox/hw/pci/pci.cpp:216-269 | saving a memory register, writing ones, reading and restoring finds its size if and only if that is a multiple of 16, and leaves the register as it was |
| PciDevice.SizeIoBar | src/core/openxbox/hw/pci/pci.cpp:216-269 | the same for I/O registers and multiples of 4 |
| PciDevice.PCIDevice.GetIOBar | src/core/openxbox/hw/pci/pci.cpp:132-172 | finds the lowest-numbered I/O register that decodes the port, exactly if there is one |
| PciDevice.PCIDevice.GetMMIOBar | src/core/openxbox/hw/pci/pci.cpp:174-214 | finds the lowest-numbered memory register that decodes the address, exactly if there is one |
| PciDevice.PCIDevice.RegisterBAR | src/core/openxbox/hw/pci/pci.cpp:216-256 | registers exactly if the header type has that register and it is free, else changes nothing |

## Left out

- Hypervisor wrappers (HAXM, KVM, WHVP), module loading, sockets, logging and the command line: foreign calls and plumbing.
- Threads and mutexes: every port access, device line change and callback is one atomic step. The port handlers of the interrupt controller do not take its mutex, so nothing here says they may run in parallel.
- Timers, the clock, the UART's character time and the driver parameters it is set from (serial.cpp:668-703), and the polling of modem lines, which the source leaves unimplemented (serial.cpp:631-666).
- Device lines of 40 and above, whose shift is undefined in C++ (i8259.cpp:115-116).
- PicRuns.RunConserves: a run ends at the first operation that does not return; what the emulator does inside one that never returns is not described.
- CpuDevice.Cpu.VirtualToPhysical: requires the page-table entries it reads to be mapped, as the source otherwise decodes an uninitialised entry.
- CpuDevice.Cpu.VMemRead: requires the same of every page of the range, and page-aligned memory ranges.
- CpuDevice.Cpu.VMemWrite: requires the same, and does not cover a write that overwrites the page tables which translate the range.
- CpuDevice.Cpu.Push: requires the same as VMemWrite, for the word below ESP.
- CpuDevice.Cpu.Pop: requires the same as VMemRead, for the word at ESP.
- CpuDevice.Cpu.MemRead: requires a range that does not run past 2^32, where the source's end address wraps around and the copy runs past its memory range; nor does it follow the source in failing for zero bytes at address 0.
- CpuDevice.Cpu.MemWrite: the same.
- Registers of the processor other than ESP and CR3, descriptor tables, breakpoints and the traversal of memory subregions (cpu.cpp:66-86).
- XbeImage.Xbe.GetLogoBitmap: requires a logo announced by the headers to lie after the header structure and within the bytes kept of it; elsewhere the source would overwrite its own header fields or memory it does not own.
- XbeImage.Xbe.ImportLogoBitmap: requires the same.
- XbeImage.Xbe.ExportLogoBitmap: requires the same, or no logo at all, and a bitmap that does not end within a record, where the source reads a byte beyond it; logos in a section are not described.
- XBE file reading and writing and DumpInformation.
- The debug assertions on malformed or oversized data in dbg_dec_hex, dbg_enc_bin and dbg_dec_bin are taken as the EOF returns that follow them; the debugger's main loop and its commands are not modelled.
- ScatterGather.IoVecToBuffer: requires an offset within the buffers, where the source's assertion would fail otherwise.
- ScatterGather.IoVecFromBuffer: requires the same, and buffers that do not share memory; for shared ones the last copy wins.
- UartTransmit.RunConservesIff: excludes flushes of the transmit FIFO, changes of FIFO mode and loopback, by which the guest itself discards or diverts bytes.
- UartReceive.RunLosesNothing: excludes loopback, in which transmitted bytes enter the FIFO without asking CanReceive.
- Serial line events other than a break, and the AcceptInput call after a read of the receive buffer: it is the last action of the read, so what the driver delivers then is the next operation.
- m_checkMask of a PCI device, which is filled in and never read, interrupt routing and the interrupt status bit (pci.cpp:275-298), and the address registers of the bus.
- The I/O port mapper, LPC, SMBus, ATA, CMOS, USB, graphics, audio and network devices: short or single-branch claims, or stubs.
