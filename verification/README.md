# Flash programmer, drivers and boot code: a verified model

The repository is firmware for an ADSP-BF512 board with an STM32 companion. This project models
the parts of it that loop, poll, follow a protocol or compute, each against a small model of the
hardware it drives, and proves what they achieve over all inputs and all runs.

| file | what it models |
|---|---|
| `Bits.dfy` | bytes and words as numbers, AND and shifts on binary digits |
| `Chip.dfy`, `Protocol.dfy` | the M25P16 serial flash behind its chip select, and when a log of bus frames respects its write-enable protocol |
| `Driver.dfy` | `m25p16.c`: frames, bounded polls, reading, programming, erasing, sectors |
| `Plan.dfy`, `Programmer.dfy`, `Verified.dfy` | the bytes a write sets out to program, and the two branches of `WriteData` |
| `FlashData.dfy`, `FlashFill.dfy`, `FillVerify.dfy`, `FlashSession.dfy` | `WriteData`, `ReadData`, `FillData`, `GetSectorMap`, the round trip, and every run of commands |
| `SpiTransfer.dfy` | `cvteBF51x_SPI.c`: byte transfers at register level |
| `Gpio.dfy`, `SpiPins.dfy` | `cvteBF51x_GPP.c`, and the pin set-up and selects of the SPI ports, on shared mux registers |
| `Uart.dfy`, `Clocks.dfy` | bit-rate and divisor arithmetic; clock check and SDRAM refresh rate |
| `Twi.dfy`, `FullOn.dfy` | the two-wire interface, the digital potentiometer, and the voltage and PLL sequence of `full_on` |
| `Nvic.dfy` | the two encoders of an interrupt priority, and the decoder |
| `MemoryTest.dfy` | the SRAM self-test on memory with faulty cells |

`Verified.dfy` and `Programmer.dfy` are split by loop; `FlashData.WriteData` and
`FillVerify.FillData` are the whole functions. Methods are proved against specification functions
(`Program`, `Scan`, `Apply`, `FullOnEvents`, `Result`, ...), and what the source promises is proved
about those.

## What the hardware is taken to do

* **Flash.** Programming ANDs a byte into a cell and erasing sets cells to 0xFF. A page-program
  cycle is over before the next frame, because `m25p16_Write` never polls for its end. An erase
  may last for any number of polls, and WEL stays set with WIP until its very end; the device only
  promises that WEL is reset at some time before that. WREN may be refused; an `alert` device
  latches it whenever it is idle. Address bits above A20 are ignored. A frame takes effect when
  chip select rises. Commands to a busy device other than a status read are dropped.
* **SPI port.** A transmit register, a shift register and a receive register that move on by
  themselves, any number of steps (possibly none, but not for ever) between two register accesses.
  STAT has TXS at bit 3 and RXS at bit 5.
* **Two-wire interface.** Two FIFOs of two bytes, drained and filled by the bus at any pace under
  the same rule; FIFO_STAT reads 3 for a full transmit FIFO and 0 for empty FIFOs; a transaction
  moves the programmed number of bytes (1 to 255). A potentiometer that does not respond ignores
  the commands that change a setting.
* **UART.** DLAB is bit 7 of LCR; under it, the divisor latches take the addresses of the data
  and interrupt-enable registers.
* **PLL and SDRAM fields** are not defined in the repository: MSEL in bits 9 to 14, BYPASS in
  bit 8 and DF in bit 0 of PLL_CTL, SSEL in the low four bits of PLL_DIV and CSEL in the two above,
  tRAS of 6 and tRP of 3. The ROM call that writes them is one atomic write.
* **SRAM.** A cell holds some function of the byte written to it; a working cell holds that byte.
* `char` is signed, `int` has 32 bits, and `>>` of a negative `int` is arithmetic.

## What was found

* `EraseBlock` does not look at WEL, so it reports no error although nothing was erased when WREN
  was refused, and also when it is tried again while an earlier erase is still running: the end of
  that erase is taken for its own. `FlashSession.EraseBlockExact` gives the exact condition for any
  device. It also ignores the error of `GetSectorStartEnd`, so an invalid sector number erases
  sector 0.
* A write to a device that is still erasing passes its WEL poll, because the latch of the erase is
  still set, and is then dropped without an error (`FlashSession.StaleLatch`). A page program or bulk
  erase is lost exactly if the status read before it showed WIP, which the code does not look at
  (`Driver.m25p16_Write`, `Driver.EraseFlash`, `FlashSession.StaleBulkErase`).
* A verify mismatch breaks out of its word only, and the address stays where it is, so all the words
  after it are written to the wrong places before VERIFY_WRITE is reported
  (`Verified.MismatchShifts`).
* A misaligned fill counts its strides from the byte before its start, so with a stride of 2 or more
  it misses its start (`FlashFill.MisalignedMisses`).
* With verification on, an aligned fill compares a byte with sixteen bits of the fill word, so it can
  succeed only if the second byte of that word is 0 (`FillVerify.AlignedExact`).
* `gpio_init` for output clears the pin, so a software-selected slave listens from its set-up until the
  first transfer to it is over, and hears the transfers to others (`SpiPins.TwoSelected`). Each set-up of
  the first SPI port routes PG15 to the peripheral and takes a software select on it away
  (`SpiPins.TakesExact`).
* `gpio_set_interruptA` and `gpio_set_interruptB` can put a pin on both lines (`Gpio.NeverBothLines`).
* `ResetFlash` reports a time-out whatever happens.
* The buffer is allocated with BUFFER_SIZE bytes, but the loops bound the count by BUFFER_SIZE
  ints: counts above BUFFER_SIZE run over it (`FlashSession.BufferHolds`).
* With verification on, the error of a write is overwritten by that of the read after it; a failed
  write is still caught, by the comparison.
* A misaligned fill programs the second byte of the fill word, an aligned one the first: they agree
  exactly if the two are equal (`FlashFill.FillsAgree`). The error of its first write is lost.
* `ReadData` checks only the first address of each word. A nonzero `lCount % 4` reads or writes one
  byte, where the comments speak of two bytes or 16 bits.
* On port H, `gpio_init` on a pin above 7 rewrites the mux field of pins 0 to 3
  (`Gpio.HighPinsOfH`).
* `verify_clocks` accepts an SSEL of 16 to 64 and a CSEL of 4, which the register fields cannot
  hold (`Clocks.DividersHeld`), and takes the configured CSEL from PLL_CTL. Comments beside the
  clock constants give another crystal than `CLKIN_Hz`.
* `full_on` ignores the result of `vr_digipot_program`: with a potentiometer that does not respond
  it leaves bypass at the old voltage (`FullOn.EndsAtVoltage`).
* If it is called in bypass with another MSEL and finds the voltage right, `full_on` changes MSEL and
  leaves bypass in one write (`FullOn.RunLeavesPreloaded`).
* A UART divisor need not survive when the bit rate is below the divisor: at the boot clock 4000
  comes back as 3996, and 4095 as 2 because its quotient does not fit 16 bits
  (`Uart.LowRateLosesDivisor`). `Uart.RoundTripExact` gives the exact condition.
* `Memory_Test` also tests the byte at `len`, and leaves the pattern there; with an odd length,
  as configured, it leaves it in two bytes (`MemoryTest.GoodMemory`).

## Model

| member | source | states |
|---|---|---|
| `Chip.M25P16.Deselect` | BF512FlashDriverM25P16/m25p16.c:931-974 | a chip-select rise closes the open frame, logs it and executes it once; WREN latches only on an idle device and always on an alert one |
| `Protocol.SafePush` | BF512FlashDriverM25P16/m25p16.c:145-171 | exactly when one more frame keeps a log safe: not malformed, and a program or erase only right after WREN and status reads, PP and BE only after WEL was read as set |
| `Protocol.MonitorExact` | BF512FlashDriverM25P16/m25p16.c:145-171 | the one-frame-at-a-time monitor breaks on exactly the logs in which some program or erase frame is not enabled |
| `Driver.SetupSPI` | BF512FlashDriverM25P16/m25p16.c:822-922 | closes a frame that is still open before starting the next one |
| `Driver.WriteFlash` | BF512FlashDriverM25P16/m25p16.c:621-642 | only the low byte of the 16-bit value goes out |
| `Driver.ReadFlash` | BF512FlashDriverM25P16/m25p16.c:562-605 | sends a zero; answers the status or the addressed byte |
| `Driver.StartFrame` | BF512FlashDriverM25P16/m25p16.c:119-124 | the three address bytes carry the low 24 address bits and select the right cell |
| `Driver.SendSingleCommand` | BF512FlashDriverM25P16/m25p16.c:784-815 | exactly one closed one-byte frame, and its effect; WREN is latched only by a device whose erase is over by the end of the frame |
| `Driver.ReadStatusRegister` | BF512FlashDriverM25P16/m25p16.c:655-671 | one closed RDSR frame that answers the true status, after closing any frame left open |
| `Driver.WaitForWel` | BF512FlashDriverM25P16/m25p16.c:716-738 | at most 35 polls; time-out exactly if WEL was clear at all of them |
| `Driver.WaitForStatus` | BF512FlashDriverM25P16/m25p16.c:751-774 | at most 35000*64 polls; time-out exactly if WIP was set at all of them; no error exactly if the device ends idle |
| `Driver.AfterPolls` | BF512FlashDriverM25P16/m25p16.c:655-671 | status reads neither program anything nor lose the write enable |
| `Driver.m25p16_Read` | BF512FlashDriverM25P16/m25p16.c:105-132 | from an idle device, byte k of the result is the cell at start+k, and no program frame is sent |
| `Driver.EnableWrite` | BF512FlashDriverM25P16/m25p16.c:145-156 | no error leaves WEL seen set and the bus armed; the last frame is a status read with the true status; an idle alert device is never timed out; a device that stays busy is unchanged and passes on its old latch |
| `Driver.PageProgram` | BF512FlashDriverM25P16/m25p16.c:158-169 | one page-program frame: on an idle enabled device that byte is ANDed into that cell only; a busy one drops it |
| `Driver.WriteOne` | BF512FlashDriverM25P16/m25p16.c:145-171 | one page-program frame with the right address and byte exactly if there is no error; what is left of any device, idle or busy at the call; the byte is lost exactly if the status read before its frame showed WIP |
| `Driver.WrittenStep` | BF512FlashDriverM25P16/m25p16.c:145-171 | one more item keeps the account of lost and programmed items |
| `Driver.m25p16_Write` | BF512FlashDriverM25P16/m25p16.c:135-174 | for any device: the bytes sent are exactly the first n of those asked for, and n is all of them exactly if there is no error; as many of them, from the first on, are dropped as have a frame right after a status read that showed WIP, and the others are programmed; none is lost from an idle start, and a device that stays busy loses all without an error |
| `Driver.GetSectorStartEnd` | BF512FlashDriverM25P16/m25p16.c:509-524 | the bounds hold exactly the addresses of that sector; otherwise an error and nothing stored |
| `Driver.GetSectorNumber` | BF512FlashDriverM25P16/m25p16.c:458-492 | the linear search finds the one sector of the cell the chip selects, exactly for the offsets on the device |
| `Driver.SectorBits` | BF512FlashDriverM25P16/m25p16.c:458-492 | the sector check passes exactly when address bits 21 to 26 are 0, and the sector is in bits 16 to 20 |
| `Driver.BulkErase` | BF512FlashDriverM25P16/m25p16.c:303-307 | the bulk-erase frame and its polls: the device is in or past that erase, or, if busy, in or past the old one |
| `Driver.BulkLogged` | BF512FlashDriverM25P16/m25p16.c:303-307 | the bulk-erase frame and its polls keep the protocol, and the frame is late exactly if the last status read showed WIP |
| `Driver.EraseFlash` | BF512FlashDriverM25P16/m25p16.c:286-317 | no error means idle and all 0xFF, unless the bulk erase was lost, which it is exactly if the status read before its frame showed WIP; a time-out leaves the contents; keeps the protocol |
| `Driver.EraseAt` | BF512FlashDriverM25P16/m25p16.c:351-363 | the sector-erase frame is closed by the first status poll; for any erase time, the device is in or past that erase, or still in or past an older one |
| `Driver.EraseBlock` | BF512FlashDriverM25P16/m25p16.c:333-368 | the frames are WREN, SE and polls only; time-out exactly if WIP was set at all polls; no error exactly if the device ends idle; then, for any device, the sector is erased if WREN was latched or WEL of an idle device was set, and otherwise nothing new was |
| `Driver.EraseAddrIsSector` | BF512FlashDriverM25P16/m25p16.c:336-343 | the erased address lies in sector nBlock, or in sector 0 for an invalid number |
| `Driver.ResetFlash` | BF512FlashDriverM25P16/m25p16.c:252-271 | the latch of an idle device is cleared and nothing else changes, and a time-out is always reported |
| `Driver.PollToggleBit` | BF512FlashDriverM25P16/m25p16.c:385-404 | 500 polls that change nothing and always end in a time-out |
| `Driver.GetCodes` | BF512FlashDriverM25P16/m25p16.c:422-443 | one identification frame that changes nothing |
| `Plan.WalkInRange` | BF512FlashDriverM25P16/BF512FlashDriverM25P16.c:632-641 | in range, the k-th address of the wrapping walk is start + k*stride and passes the sector check |
| `Plan.PlanInRange` | BF512FlashDriverM25P16/BF512FlashDriverM25P16.c:632-667 | the planned bytes go to distinct cells, start + k*stride for byte k |
| `Plan.ByteOfValue` | BF512FlashDriverM25P16/BF512FlashDriverM25P16.c:649-650 | byte j of a word is the word divided by 2^(8j), modulo 256 |
| `Plan.BytesPlanned` | BF512FlashDriverM25P16/BF512FlashDriverM25P16.c:621-637 | a count of up to 0xC003 stands for all its full words, a larger one for 0xC000 bytes of them, and a leftover for one byte; none for a negative count |
| `Plan.ProgramOnlyClears` | BF512FlashDriverM25P16/m25p16.c:145-171 | programming any items changes no cell off them and sets no bit |
| `Plan.ProgramAt` | BF512FlashDriverM25P16/m25p16.c:145-171 | over distinct cells each item is ANDed into what was there at the start |
| `Programmer.WriteWord` | BF512FlashDriverM25P16/BF512FlashDriverM25P16.c:711-732 | the inner loop programs four more items of the plan, or stops at the first error |
| `Programmer.WriteUnverified` | BF512FlashDriverM25P16/BF512FlashDriverM25P16.c:705-756 | whatever WEL time-outs and sector failures occur: exactly the first n planned bytes are sent, all exactly if there is no error, and the error is that of byte n; from an idle start those n are programmed, and from a busy one all but the first ones whose frames were late |
| `Programmer.WritePlanPlanned` | BF512FlashDriverM25P16/BF512FlashDriverM25P16.c:708-756 | the plan is, word by word, the four bytes from the low one up, and one byte for a leftover |
| `Verified.NextFits` | BF512FlashDriverM25P16/BF512FlashDriverM25P16.c:647-658 | a byte reads back right exactly if all its bits were still set, or it was there already |
| `Verified.RunStep` | BF512FlashDriverM25P16/BF512FlashDriverM25P16.c:647-660 | one program-read-compare attempt keeps the invariant of the run, also after a mismatch has shifted the addresses |
| `Verified.KeptStep` | BF512FlashDriverM25P16/BF512FlashDriverM25P16.c:647-660 | of any device, busy at the call or not, one attempt changes only the cell of the walk it is at |
| `Verified.TryByte` | BF512FlashDriverM25P16/BF512FlashDriverM25P16.c:641-660 | sector check, program, read back and compare of one byte, on any device |
| `Verified.TryStep` | BF512FlashDriverM25P16/BF512FlashDriverM25P16.c:641-666 | one attempt keeps the whole invariant of the run, and what is still to come goes on giving the verdict of the whole |
| `Verified.AtEnd` | BF512FlashDriverM25P16/BF512FlashDriverM25P16.c:668-703 | at the end of the plan, or before a leftover that is not tried after a mismatch, the run has the verdict |
| `Verified.CheckedByte` | BF512FlashDriverM25P16/BF512FlashDriverM25P16.c:641-666 | the shared block of both loops as a step of the run |
| `Verified.VerifyByte` | BF512FlashDriverM25P16/BF512FlashDriverM25P16.c:641-666 | one turn of the inner loop keeps the state of the run; a mismatch goes on at the next word and does not move the address on |
| `Verified.VerifyWord` | BF512FlashDriverM25P16/BF512FlashDriverM25P16.c:639-667 | the inner loop, from which a mismatch breaks; after a sector error too, only cells of the walk were programmed |
| `Verified.VerifyWords` | BF512FlashDriverM25P16/BF512FlashDriverM25P16.c:637-668 | the outer loop goes on after a mismatch and ends at a sector error |
| `Verified.VerifyAll` | BF512FlashDriverM25P16/BF512FlashDriverM25P16.c:634-703 | both loops and the leftover end as foretold |
| `Verified.AheadOf` | BF512FlashDriverM25P16/BF512FlashDriverM25P16.c:634-703 | what fits goes by without a mismatch |
| `Verified.FirstMismatch` | BF512FlashDriverM25P16/BF512FlashDriverM25P16.c:655-659 | the first byte that does not fit is programmed all the same, and the run goes on at the next word with the address where it was |
| `Verified.MismatchShifts` | BF512FlashDriverM25P16/BF512FlashDriverM25P16.c:639-666 | so the words after a mismatch are all written and compared, but from the place of the mismatched byte on, and the result is VERIFY_WRITE |
| `Verified.WriteVerified` | BF512FlashDriverM25P16/BF512FlashDriverM25P16.c:634-703 | whatever the result, the range and the device, what was programmed lies on the walk; from an idle start and without a sector error there is a mismatch or the plan is in flash; and on a device that takes every write the contents and the result are those foretold byte by byte |
| `FlashData.FitsExact` | BF512FlashDriverM25P16/BF512FlashDriverM25P16.c:634-703 | over distinct cells, every byte fits at its turn exactly if every byte fits the memory before the call |
| `FlashData.FitLands` | BF512FlashDriverM25P16/BF512FlashDriverM25P16.c:634-703 | bytes that all fit are all in flash afterwards |
| `FlashData.RunOutcome` | BF512FlashDriverM25P16/BF512FlashDriverM25P16.c:634-703 | a finished verified run gives NO_ERR only if all bytes fitted and are in flash; if they fit, an alert device gives NO_ERR; otherwise VERIFY_WRITE; off the stride nothing changes and no bit is set |
| `FlashData.WriteRange` | BF512FlashDriverM25P16/BF512FlashDriverM25P16.c:634-703 | the same for the call as a whole; for any device, start, stride and result no cell off the walk changes and no bit is set, besides the end of an erase that was running |
| `FlashData.PrefixOnlyClears` | BF512FlashDriverM25P16/BF512FlashDriverM25P16.c:708-756 | programming part of a plan changes no cell off it and sets no bit |
| `FlashData.WriteData` | BF512FlashDriverM25P16/BF512FlashDriverM25P16.c:614-757 | verified: exact as above for in-range addresses and any contents, and for any range on a device that takes every write; unverified: exactly a prefix of the plan; either way, for any device, range and result, only cells of the plan change and no bit is set |
| `FlashData.WholeOutcome` | BF512FlashDriverM25P16/BF512FlashDriverM25P16.c:614-757 | for whole words up to a count of 0xC000 the outcome of a write, place by place |
| `FlashData.WriteWhole` | BF512FlashDriverM25P16/BF512FlashDriverM25P16.c:614-757 | NO_ERR means that each of the count bytes is at start + k*stride, or has been ANDed in there if not verified; with verification, an alert device gives NO_ERR exactly if all fit |
| `FlashData.StoreLowExact` | BF512FlashDriverM25P16/BF512FlashDriverM25P16.c:843 | the leftover's 16-bit store puts the byte into the low half and keeps the high half |
| `FlashData.ReadWord` | BF512FlashDriverM25P16/BF512FlashDriverM25P16.c:802-822 | four strided reads make one word, low byte first, and change nothing |
| `FlashData.ReadData` | BF512FlashDriverM25P16/BF512FlashDriverM25P16.c:778-853 | every full word, and for the leftover the byte in the low half with the high half kept; nothing else in the buffer, the device unchanged; the first address of each word and that of the leftover passed the sector check, and the error is that of the first one refused |
| `FlashData.MergeSplit` | BF512FlashDriverM25P16/BF512FlashDriverM25P16.c:817-818 | the reading mask-and-shift undoes the writing shift for every 32-bit int, negative ones included |
| `FlashData.ReadBack` | BF512FlashDriverM25P16/BF512FlashDriverM25P16.c:797-849 | a flash that holds the plan reads as the words the plan came from |
| `FlashFill.FillLoop` | BF512FlashDriverM25P16/BF512FlashDriverM25P16.c:570-590 | programs exactly a prefix of the fill, or nothing when entered with an error |
| `FlashFill.FillEnds` | BF512FlashDriverM25P16/BF512FlashDriverM25P16.c:494-523 | on any idle device, no error means the byte before the start is as it was and the last byte has the second byte of the fill word ANDed in; an error means nothing changed |
| `FlashFill.FillMisaligned` | BF512FlashDriverM25P16/BF512FlashDriverM25P16.c:494-531 | both ends and exactly a prefix of the rest are programmed, all of it exactly if there is no error, or nothing is |
| `FlashFill.FillUnverified` | BF512FlashDriverM25P16/BF512FlashDriverM25P16.c:494-590 | with verification off, what either path programs under any time-outs: the aligned one on any device, the misaligned one on any idle device |
| `FlashFill.AlignedFill` | BF512FlashDriverM25P16/BF512FlashDriverM25P16.c:570-590 | stride 1, in range: no error means the low byte is ANDed into exactly the lCount bytes, and the only error is a time-out |
| `FlashFill.MisalignedFill` | BF512FlashDriverM25P16/BF512FlashDriverM25P16.c:494-531 | stride 1, in range: no error means the second byte is ANDed into exactly the lCount bytes, and the byte before them stays, whatever it was; the only error is a time-out |
| `FlashFill.FillBytes` | BF512FlashDriverM25P16/BF512FlashDriverM25P16.c:494-590 | both for the call as a whole |
| `FlashFill.FillsAgree` | BF512FlashDriverM25P16/BF512FlashDriverM25P16.c:494-531 | the two paths do the same on every memory exactly if the low two bytes of the fill word are equal |
| `FlashFill.SwappedExact` | BF512FlashDriverM25P16/BF512FlashDriverM25P16.c:525-531 | the misaligned path leaves the fill word as a signed 16-bit number with its two bytes swapped |
| `FlashFill.MisalignedCells` | BF512FlashDriverM25P16/BF512FlashDriverM25P16.c:510-523 | a misaligned fill of any stride writes the places one stride apart from the byte before its start on |
| `FlashFill.MisalignedMisses` | BF512FlashDriverM25P16/BF512FlashDriverM25P16.c:510-523 | so from stride 2 on it does not fill its start |
| `FillVerify.WideExact` | BF512FlashDriverM25P16/BF512FlashDriverM25P16.c:525-531 | the sixteen bits compared are no byte exactly if the second byte of the fill word is not 0, or the first one for a misaligned fill |
| `FillVerify.VerifiedFill` | BF512FlashDriverM25P16/BF512FlashDriverM25P16.c:534-564 | the verified loop: the first mismatch ends the fill; when the bits compared are no byte, exactly the first byte is programmed and only an empty fill succeeds |
| `FillVerify.VerifiedLoop` | BF512FlashDriverM25P16/BF512FlashDriverM25P16.c:534-564 | the same for the loop as entered after the ends |
| `FillVerify.FillMisalignedVerified` | BF512FlashDriverM25P16/BF512FlashDriverM25P16.c:494-564 | on any idle device both ends are programmed and the loop runs on what that left, or nothing is done |
| `FillVerify.FillVerified` | BF512FlashDriverM25P16/BF512FlashDriverM25P16.c:494-564 | either path with verification on |
| `FillVerify.FillData` | BF512FlashDriverM25P16/BF512FlashDriverM25P16.c:478-594 | the whole call with verification on or off, and the fill word it leaves |
| `FillVerify.NarrowExact` | BF512FlashDriverM25P16/BF512FlashDriverM25P16.c:534-564 | with a second byte of 0: NO_ERR only with all bytes in flash, and on an alert device the very result and contents |
| `FillVerify.WideFill` | BF512FlashDriverM25P16/BF512FlashDriverM25P16.c:534-564 | otherwise VERIFY_WRITE after one byte |
| `FillVerify.AlignedExact` | BF512FlashDriverM25P16/BF512FlashDriverM25P16.c:534-564 | aligned and in range on an idle device: NO_ERR only if there is nothing to fill or the second byte of the fill word is 0 and all bytes fit, and then all are in flash; an alert device gives NO_ERR whenever that holds; otherwise VERIFY_WRITE |
| `FillVerify.FillAndVerify` | BF512FlashDriverM25P16/BF512FlashDriverM25P16.c:478-594 | the same for the call as a whole |
| `FlashSession.GetSectorMap` | BF512FlashDriverM25P16/BF512FlashDriverM25P16.c:401-419 | the location of every sector asked for, and the error exactly if too many are |
| `FlashSession.SectorsPartition` | BF512FlashDriverM25P16/BF512FlashDriverM25P16.c:401-419 | every cell is in exactly one mapped sector, and erasing a sector clears exactly its mapped range |
| `FlashSession.EraseBlockExact` | BF512FlashDriverM25P16/m25p16.c:333-368 | with no error, on any device: exactly the named 64 KiB are 0xFF and all else is unchanged if WREN was latched or WEL of an idle device was set; else only the erase that was running has ended |
| `FlashSession.EraseBlockTimeout` | BF512FlashDriverM25P16/m25p16.c:333-368 | after a time-out the erase of that sector is still running with WEL set and the contents as before; a device that was busy and did not latch is unchanged |
| `FlashSession.EraseTwice` | BF512FlashDriverM25P16/m25p16.c:333-368 | two erases in a row do both sectors if the first reports no error; after a time-out of the first, success of the second means the second sector was erased exactly if its WREN was latched |
| `FlashSession.StaleLatch` | BF512FlashDriverM25P16/m25p16.c:135-174 | a write of any bytes after an erase that timed out and is still running reports no error and changes nothing |
| `FlashSession.StaleBulkErase` | BF512FlashDriverM25P16/m25p16.c:286-317 | a bulk erase after an erase that timed out, if it reports no error, has erased everything exactly if its frame was not late; if it was, only the first erase is done |
| `FlashSession.WriteOutcome` | BF512FlashDriverM25P16/BF512FlashDriverM25P16.c:614-757 | either kind of write of bytes that fit: no bit set, nothing off the stride, and NO_ERR only with everything in flash |
| `FlashSession.WriteThenRead` | BF512FlashDriverM25P16/BF512FlashDriverM25P16.c:614-853 | after a write without error over erased cells, a read with the same start, count and stride gives back every full word and the low byte of the leftover, whose word is otherwise kept |
| `FlashSession.EraseWriteRead` | BF512FlashDriverM25P16/BF512FlashDriverM25P16.c:215-296 | erasing a sector of any contents, writing within it and reading back returns the data, no other sector changes, and a time-out of the erase changes nothing |
| `FlashSession.BufferHolds` | BF512FlashDriverM25P16/BF512FlashDriverM25P16.c:310-340 | the words a count asks for fit the allocated buffer exactly up to a count of BUFFER_SIZE, although the loops run on to four times that |
| `FlashSession.ProcessData` | BF512FlashDriverM25P16/BF512FlashDriverM25P16.c:215-296 | the commands with a buffer keep the protocol, and each has its effect on the device and its result |
| `FlashSession.ProcessCommand` | BF512FlashDriverM25P16/BF512FlashDriverM25P16.c:215-296 | any command keeps the log safe, leaves chip select high and has the effect of its own operation, from any state of the device |
| `FlashSession.Session` | BF512FlashDriverM25P16/BF512FlashDriverM25P16.c:118-200 | so does every run of commands from power up, for any contents, refusals and erase times |
| `SpiTransfer.Port.Advance` | AllInOneVDK/CVTELib/cvteBF51x_SPI.c:415-445 | however far the hardware moves, a byte under way is neither lost nor doubled, and a quiet port stays quiet |
| `SpiTransfer.Exchange` | AllInOneVDK/CVTELib/cvteBF51x_SPI.c:396-413 | one byte out and the byte of the same beat in; nothing overwritten, nothing lost, RXS clear; the busy waits end |
| `SpiTransfer.SPI_write_buf` | AllInOneVDK/CVTELib/cvteBF51x_SPI.c:415-445 | the wire carries exactly cmd++buf, at every byte with the select pin low and no other pin register changed; released at the end |
| `SpiTransfer.SPI_read_buf` | AllInOneVDK/CVTELib/cvteBF51x_SPI.c:466-501 | the wire carries exactly cmd++zeros under the same select, and buf gets exactly the bytes that came in after cmd |
| `SpiTransfer.SPI_write_byte` | AllInOneVDK/CVTELib/cvteBF51x_SPI.c:396-413 | one selected beat with the byte, returning the byte of that beat |
| `SpiTransfer.SPI_read_byte` | AllInOneVDK/CVTELib/cvteBF51x_SPI.c:447-464 | one selected beat with a zero, returning the byte of that beat |
| `SpiPins.Board.SPI_SSEL_LOW` | AllInOneVDK/CVTELib/cvteBF51x_SPI.c:250-299 | its own switch drives exactly the pin the set-up configures low, and none for a hardware select |
| `SpiPins.Board.SPI_SSEL_HIGH` | AllInOneVDK/CVTELib/cvteBF51x_SPI.c:199-248 | its own switch drives exactly the pin the set-up configures high, and none for a hardware select |
| `Gpio.GpioPort.ConnectPin` | AllInOneVDK/CVTELib/cvteBF51x_GPP.c:59-173 | function enable and mux registers after the call |
| `Gpio.GpioPort.DirectPin` | AllInOneVDK/CVTELib/cvteBF51x_GPP.c:175-189 | direction, input, sense and mask registers after the call |
| `Gpio.GpioPort.gpio_init` | AllInOneVDK/CVTELib/cvteBF51x_GPP.c:54-190 | the whole new register state |
| `Gpio.GpioPort.gpio_set` | AllInOneVDK/CVTELib/cvteBF51x_GPP.c:199-202 | raises this pin and nothing else |
| `Gpio.GpioPort.gpio_clear` | AllInOneVDK/CVTELib/cvteBF51x_GPP.c:223-226 | lowers this pin and nothing else |
| `Gpio.GpioPort.gpio_cfg_interrupt` | AllInOneVDK/CVTELib/cvteBF51x_GPP.c:240-269 | the whole new state of the sense registers |
| `Gpio.GpioPort.gpio_interruptA` | AllInOneVDK/CVTELib/cvteBF51x_GPP.c:287-292 | sense and routing of the pin, nothing else |
| `Gpio.GpioPort.gpio_interruptB` | AllInOneVDK/CVTELib/cvteBF51x_GPP.c:322-327 | sense and routing of the pin, nothing else |
| `Gpio.GpioPort.gpio_set_interruptA` | AllInOneVDK/CVTELib/cvteBF51x_GPP.c:294-304 | switches line A of the pin, nothing else |
| `Gpio.GpioPort.gpio_set_interruptB` | AllInOneVDK/CVTELib/cvteBF51x_GPP.c:329-339 | switches line B of the pin, nothing else |
| `Gpio.InitRoutes` | AllInOneVDK/CVTELib/cvteBF51x_GPP.c:59-173 | where every pin of the port is routed after the call: the pin as asked, pins sharing its mux field with it, all others as before |
| `Gpio.InitKeepsBits` | AllInOneVDK/CVTELib/cvteBF51x_GPP.c:148-173 | every other bit of FER and of the mux register is preserved, all mux bits for GPIO |
| `Gpio.OffsetExact` | AllInOneVDK/CVTELib/cvteBF51x_GPP.c:59-146 | the mux field of a pin is twice the number of its group, with the groups of each port given by their first pins, and the first field for port H above 7 |
| `Gpio.MuxAfterInit` | AllInOneVDK/CVTELib/cvteBF51x_GPP.c:59-173 | which bits of the mux register are set after an init |
| `Gpio.DirectionAfterInit` | AllInOneVDK/CVTELib/cvteBF51x_GPP.c:175-189 | which bits of all other registers are set after an init |
| `Gpio.HighPinsOfH` | AllInOneVDK/CVTELib/cvteBF51x_GPP.c:59-146 | an init of PH8 and up takes PH0 to PH3 off their function |
| `Gpio.OneCall` | AllInOneVDK/CVTELib/cvteBF51x_GPP.c:175-339 | decoding the registers after a call gives what the call asked for |
| `Gpio.RunAsWanted` | AllInOneVDK/CVTELib/cvteBF51x_GPP.c:175-339 | over every run, each pin has the sense and lines last asked for, whatever stale BOTH bit came before |
| `Gpio.NeverBothLines` | AllInOneVDK/CVTELib/cvteBF51x_GPP.c:287-339 | over every run, no pin is ever on both lines exactly if no call switches a line on while the pin is on the other |
| `Gpio.InterruptsApart` | AllInOneVDK/CVTELib/cvteBF51x_GPP.c:175-327 | so runs of gpio_init, gpio_interruptA and gpio_interruptB never put a pin on both |
| `SpiPins.Board.SPI_IO_Init` | AllInOneVDK/CVTELib/cvteBF51x_SPI.c:65-84 | the four inits of the port, in order |
| `SpiPins.Board.SPI_SSEL_SW_Init` | AllInOneVDK/CVTELib/cvteBF51x_SPI.c:86-134 | the select pin as GPIO, or nothing for a number without a pin |
| `SpiPins.Board.SPI_SSEL_HW_Init` | AllInOneVDK/CVTELib/cvteBF51x_SPI.c:136-184 | the select pin on its peripheral function, or nothing |
| `SpiPins.Board.SPI_Init` | AllInOneVDK/CVTELib/cvteBF51x_SPI.c:387-394 | data pins first, then the select pin |
| `SpiPins.Board.SetUpAll` | AllInOneVDK/CVTELib/cvteBF51x_SPI.c:387-394 | after any interleaving of set-ups with any select and mode, the data pins of every port set up are routed |
| `SpiPins.HarmlessKeeps` | AllInOneVDK/CVTELib/cvteBF51x_GPP.c:148-173 | an init on another mux field, or with the same function, keeps a port routed |
| `SpiPins.HarmfulBreaks` | AllInOneVDK/CVTELib/cvteBF51x_GPP.c:148-173 | every other init breaks it, so the condition is exact |
| `SpiPins.GroupRouted` | AllInOneVDK/CVTELib/cvteBF51x_SPI.c:65-84 | pins of one mux field set up in turn all end on their function |
| `SpiPins.OwnPins` | AllInOneVDK/CVTELib/cvteBF51x_SPI.c:387-394 | a set-up routes the clock and data pins of its own port, from any state |
| `SpiPins.OthersKept` | AllInOneVDK/CVTELib/cvteBF51x_SPI.c:387-394 | a set-up unroutes neither port |
| `SpiPins.SelectReleases` | AllInOneVDK/CVTELib/cvteBF51x_SPI.c:199-299 | releasing after selecting leaves the pins as releasing alone does |
| `SpiPins.SelectPinReady` | AllInOneVDK/CVTELib/cvteBF51x_SPI.c:86-134 | with software select, the pin that is driven is a GPIO output after the set-up, also where it shares a group with the data pins |
| `SpiPins.HardSelectRouted` | AllInOneVDK/CVTELib/cvteBF51x_SPI.c:136-184 | with hardware select the pin is on its peripheral, by the first function for PF7 and PG15 and by the third for the others |
| `SpiPins.SelectDistinct` | AllInOneVDK/CVTELib/cvteBF51x_SPI.c:86-184 | no two devices share a select pin |
| `SpiPins.SelectKeepsRoutes` | AllInOneVDK/CVTELib/cvteBF51x_SPI.c:199-299 | selecting changes no route and no direction of any pin |
| `SpiPins.Board.UseAll` | AllInOneVDK/CVTELib/cvteBF51x_SPI.c:387-445 | a run of set-ups and transfers on the registers is the run the lemmas are about |
| `SpiPins.PinAfterUses` | AllInOneVDK/CVTELib/cvteBF51x_SPI.c:65-299 | over every run of set-ups and transfers, whether a pin is on GPIO and whether it is low, by the last use that touched it |
| `SpiPins.TakesExact` | AllInOneVDK/CVTELib/cvteBF51x_SPI.c:65-184 | a set-up takes a select pin from the software exactly if it selects the same device by hardware, or is one of the first port when the pin is PG15 and not selected by software again |
| `SpiPins.SelectedExact` | AllInOneVDK/CVTELib/cvteBF51x_SPI.c:65-299 | exactly which slaves listen during a transfer, after any run |
| `SpiPins.TwoSelected` | AllInOneVDK/CVTELib/cvteBF51x_SPI.c:65-299 | right after two slaves are set up, a transfer to the second is heard by the first as well, unless its pin was taken away |
| `Uart.UartGetBitrate` | BF512_InitCode/src/UART.c:241-265 | the twice-rounded rate; latches and other registers stay, DLAB is off, nothing is sent |
| `Uart.UartSetBitrate` | BF512_InitCode/src/UART.c:277-321 | the latches hold the rounded divisor, DLAB is off, and the report with both latch bytes is sent |
| `Uart.NearestExact` | BF512_InitCode/src/UART.c:296-305 | the divisor with the bit rate nearest to a given one, as bounds on the clock |
| `Uart.DivisorExact` | BF512_InitCode/src/UART.c:296-305 | for any clock and rate the divisor is the low twelve bits of the nearest one; so (16d-8)*rate <= SCLK < (16d+8)*rate exactly if the quotient plus 8 fits 16 bits |
| `Uart.RateExact` | BF512_InitCode/src/UART.c:257-264 | the rate read is r exactly if (16r-8)*d <= SCLK < (16r+8)*d, unless the rounding overflows 32 bits |
| `Uart.RateBrackets` | BF512_InitCode/src/UART.c:257-264 | in particular these bounds hold for every rate above 0 |
| `Uart.RoundTripExact` | BF512_InitCode/src/UART.c:257-305 | reading the rate and setting it again restores the divisor d exactly if d is at most 4095 and (16d-8)*rate <= SCLK < (16d+8)*rate, for any clock and any nonzero rate |
| `Uart.SetAgain` | BF512_InitCode/src/UART.c:241-321 | the same for the two functions on the registers |
| `Uart.DivisorRoundTrip` | BF512_InitCode/src/UART.c:257-305 | in particular every divisor from 1 to 4095 that is at most the rate comes back |
| `Uart.LowRateLosesDivisor` | BF512_InitCode/src/UART.c:257-305 | at the boot clock a divisor of 4000 comes back as 3996 and one of 4095 as 2 |
| `Clocks.RdivExact` | BF512_InitCode/src/system.c:601-604 | the truncated divider brackets the refresh time exactly for SCLK from 576 kHz to below 4194.88 MHz |
| `Clocks.AcceptedClocksRefresh` | BF512_InitCode/src/system.c:402-429 | values accepted by verify_clocks and held in the registers give an SCLK within its limit and a refresh interval that is the longest within tREF |
| `Clocks.AcceptedExactly` | BF512_InitCode/src/system.c:402-429 | verify_clocks accepts exactly 5 <= MSEL <= 33, CSEL <= 4 and 1 <= SSEL <= 64 with 3*MSEL <= 20*SSEL, or no values at all |
| `Clocks.SclkFields` | BF512_InitCode/src/system.c:184-246 | the system clock for every value of the fields: MSEL of 0 as 64, DF, bypass and SSEL |
| `Clocks.BootClocksAccepted` | BF512_InitCode/src/system.c:237-246 | the boot settings are accepted and give 36 MHz |
| `Clocks.DividersHeld` | BF512_InitCode/src/system.c:415-416 | checked SSEL and CSEL values can be held in PLL_DIV exactly if they are below 16 and 4, but 16 and 4 are accepted |
| `Twi.Board.Advance` | BF512_InitCode/src/TWI.c:104-110 | however far the bus moves, the transaction under way keeps its bytes in order; the bus makes progress unless it waits for the program |
| `Twi.Board.WriteOne` | BF512_InitCode/src/TWI.c:95-112 | one message is delivered whole and in order, the FIFO is never overfilled, and the waits end |
| `Twi.ChunkAt` | BF512_InitCode/src/TWI.c:93-110 | message k of a buffer is the uwTwiLength bytes at k*uwTwiLength |
| `Twi.RoomExact` | BF512_InitCode/src/TWI.c:93-110 | the messages fit the buffer exactly if the product of count and length does |
| `Twi.Board.twi_mastermode_write` | BF512_InitCode/src/TWI.c:84-116 | the slave gets uwCount transactions of uwTwiLength bytes in buffer order, for any drain schedule |
| `Twi.StoresExplain` | BF512_InitCode/src/VR_DIGIPOT.c:67-82 | the logged stores account for every change of the setting by any sequence of messages |
| `Twi.WritesRecorded` | BF512_InitCode/src/TWI.c:84-116 | whatever is written, the whole log goes on telling the present setting and PLL_CTL |
| `Twi.Board.twi_mastermode_read` | BF512_InitCode/src/TWI.c:126-151 | fills exactly the asked bytes with what the slave answers, and changes no setting |
| `FullOn.vr_digipot_rdac_read` | BF512_InitCode/src/VR_DIGIPOT.c:121-132 | the present setting, without storing anything |
| `FullOn.vr_digipot_check` | BF512_InitCode/src/VR_DIGIPOT.c:92-111 | NO_ERR exactly if setting and EEPROM both are the wanted value |
| `FullOn.vr_digipot_program` | BF512_InitCode/src/VR_DIGIPOT.c:67-82 | stores setting and EEPROM, and reports truthfully whether both now are the wanted value |
| `FullOn.full_on` | BF512_InitCode/src/system.c:57-117 | the whole sequence of register and setting changes, for a potentiometer that responds or not; it ends with MSEL 12, SSEL 4 and lock count 0x200, and the logged stores lead to the setting it leaves |
| `FullOn.VoltageChangesInBypass` | BF512_InitCode/src/system.c:47-117 | in a log with stores in bypass only, at every point, an event that changes the setting comes while PLL_CTL has BYPASS set |
| `FullOn.RunRecorded` | BF512_InitCode/src/system.c:57-117 | the events of one run store in bypass only, and lead to the setting and PLL_CTL it leaves |
| `FullOn.RunKeeps` | BF512_InitCode/src/system.c:57-117 | so one more run keeps any such log such a log |
| `FullOn.RunPreloads` | BF512_InitCode/src/system.c:62-104 | every PLL write of a run carries MSEL 12, DF 0, the divider and the lock count of the end, so that leaving bypass changes none of them |
| `FullOn.RunLeavesPreloaded` | BF512_InitCode/src/system.c:47-117 | a write out of bypass never changes MSEL, exactly unless the run starts in bypass with another MSEL and finds the setting in place |
| `FullOn.OneRun` | BF512_InitCode/src/system.c:57-117 | one run on a board with such a log |
| `FullOn.Runs` | BF512_InitCode/src/system.c:47-117 | over any number of runs the setting never changes outside bypass, and leaving bypass never changes MSEL but in that one case |
| `FullOn.EndsAtVoltage` | BF512_InitCode/src/system.c:57-117 | ends out of bypass always, and at the wanted setting exactly if it was there before or the potentiometer responds |
| `FullOn.FullOnTwice` | BF512_InitCode/src/system.c:57-117 | a second run stores nothing |
| `Nvic.WidthsSum` | AllInOneSTM32/Core/core_cm3.h:1636-1641 | the two field widths add up to the number of priority bits, for every number and group |
| `Nvic.EncodeFits` | AllInOneSTM32/Core/core_cm3.h:1634-1647 | an encoded priority has at most that many bits |
| `Nvic.DecodeEncode` | AllInOneSTM32/Core/core_cm3.h:1634-1676 | decoding an encoded pair gives each part modulo its width |
| `Nvic.EncodeDecode` | AllInOneSTM32/Core/core_cm3.h:1634-1676 | encoding a decoded priority is the identity below 2^N |
| `Nvic.EncodeOrder` | AllInOneSTM32/Core/core_cm3.h:1634-1647 | for parts in range, encoded order is preemption first, then subpriority |
| `Nvic.SplitAtGroup` | AllInOneSTM32/Core/core_cm3.h:1586-1647 | bit g of the priority byte separates the two parts, for every number of priority bits up to 8 and every group g |
| `Nvic.EncodersAgree` | AllInOneSTM32/Stm32_lib/src/misc.c:124-132 | the byte NVIC_Init stores is the one NVIC_SetPriority stores for the encoded pair, although the preemption priority is not masked |
| `Nvic.GetSet` | AllInOneSTM32/Core/core_cm3.h:1586-1616 | reading back a set priority gives it unchanged below 2^N |
| `Nvic.InitDecodes` | AllInOneSTM32/Stm32_lib/src/misc.c:112-144 | the parts given to NVIC_Init come back, modulo their widths, through the CMSIS functions |
| `Nvic.Controller.NVIC_PriorityGroupConfig` | AllInOneSTM32/Stm32_lib/src/misc.c:96-103 | the group field holds the group |
| `Nvic.Controller.NVIC_Init` | AllInOneSTM32/Stm32_lib/src/misc.c:112-144 | priority byte and enable bit of this channel only, or just the disable; for groups 3 to 7 the byte is the encoded one |
| `Nvic.Controller.NVIC_SetPriority` | AllInOneSTM32/Core/core_cm3.h:1586-1592 | the byte of this interrupt only, in the array core and device interrupts have |
| `Nvic.Controller.NVIC_GetPriority` | AllInOneSTM32/Core/core_cm3.h:1609-1616 | the priority held for this interrupt |
| `Nvic.Controller.InitThenDecode` | AllInOneSTM32/Stm32_lib/src/misc.c:96-144 | configured with one library and read with the other, the parts agree |
| `MemoryTest.Sram.TestRange` | AllInOneSTM32/Core/system_stm32f10x.c:1099-1117 | pattern in every cell of the range and each cell that does not hold it counted once, modulo 2^16 |
| `MemoryTest.Sram.Memory_Test` | AllInOneSTM32/Core/system_stm32f10x.c:1084-1123 | the count of bad cells in [0, len] and the contents left, for any length and any faults |
| `MemoryTest.SavedAndRestored` | AllInOneSTM32/Core/system_stm32f10x.c:1096-1107 | the first half comes back from the second, each byte as its two trips left it |
| `MemoryTest.GoodMemory` | AllInOneSTM32/Core/system_stm32f10x.c:1084-1123 | on working cells: no error, first half restored, second half zero, pattern left up to len |
| `MemoryTest.ReportIsTrue` | AllInOneSTM32/Core/system_stm32f10x.c:1096-1121 | with at most 65535 cells tested the report is the true count, 0 exactly if every cell holds the pattern |
| `MemoryTest.StuckBitFound` | AllInOneSTM32/Core/system_stm32f10x.c:1100-1117 | a cell with bit j stuck at b and its other bits working is counted exactly if b differs from (j is odd) |
| `MemoryTest.BadCellsCounts` | AllInOneSTM32/Core/system_stm32f10x.c:1109-1121 | the count is at most the number of cells and 0 exactly if none is bad |
| `MemoryTest.MissedFault` | AllInOneSTM32/Core/system_stm32f10x.c:1096-1121 | there is a stuck bit the single pattern does not find |

## Left out

- FillVerify.FillData: for a misaligned start the contents are stated for a device that is idle at the call.
- FlashSession.ProcessCommand: the commands that send frames, without command words, host buffers, AFP globals and breakpoint labels; a buffer is as long as its count asks for. DataFlashAddress is not part of this model.
- Driver.GetCodes: the identification bytes the device answers are left open.
- Driver.SetupSPI: only the chip-select edges, not the baud-rate, flag and control registers.
- FlashData.WriteData: the result of a verified write to a device that is not idle is left open, because what its reads return is.
- Nvic.Controller.NVIC_Init: for groups 0 to 2 the priority byte is left open, because the shift count is negative for four priority bits and C does not define the result.
- Uart.SetAgain: a bit rate of 0, which UartSetBitrate would divide by, is excluded.
- SpiPins.Board.SPI_Init: SPI_Mode_Init, the baud rate and the enable bit are left out.
- Twi.Board.twi_mastermode_write: target address, clock dividers, twi_reset and missing acknowledges are left out; the loop counters are 8 bits wide, so counts above 255 would not end and are excluded.
- FullOn.full_on: the delay loop, the two silicon workarounds (wake-up and PLL_DIV) and the BF54x variant are left out, and the ROM call is one atomic write.
- Clocks.AcceptedClocksRefresh: reading a zero SSEL would divide by zero and is excluded by a precondition of SclkHz.
- MemoryTest.Sram.Memory_Test: power and backup-domain calls are left out except for the register the count goes to; addresses are offsets from the start of the SRAM.
- get_cclk_hz, sdram_en, SystemInit and the clock tables, NOR flash, VDK threads and the peripheral headers are left out: finite tables, straight-line register pokes, or not needed here.
- Wall-clock time, nop delays and interrupts are left out.
