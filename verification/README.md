# Verified model of the boot and programming tool-chain

This project models, in Dafny, the parts of the tool-chain in which bytes and bits
must arrive exactly right after crossing several layers of state, and proves what
those layers promise to each other.

- **JTAG** (`Tap`, `Chain`, `Scans`, `Jtag`): the `Jtag` class with its shadow TAP
  state, its bit-packed buffer of pending TMS levels and its padding for
  multi-device chains, against the TAP controller of clause 6.1 of IEEE Std
  1149.1-2013 and a chain modelled as one long shift register.
- **Cables** (`Packed`, `Wire`, `Drivers`, `CmsisDap`, `Gwu2x`, `Mpsse`): three
  drivers that compile clocks into packet languages, each against a decoder of its
  language, and what a scan does over such a driver.
- **XMODEM boot** (`Xmodem`, `Crc32`, `Memory`, `Dtb`, `Boot`): sender and receiver
  as one state machine over two lossy lines, the CRC-32 handshake, the device-tree
  patch inside the array being scanned, and SDRAM at the jump to the kernel.
- **SD boot** (`U32`, `SdBlob`, `SdWire`, `SdDriver`): the blob layout, the partial
  update, the lock-step write protocol, and the SPI driver down to single bytes.
- **Flash programming** (`BpiBridge`, `BpiFlash`, `Max10`): the parallel NOR flash
  behind the JTAG bridge, from packet bits through the bridge's state machine to
  the device's command state machine, and the sparse MAX10 writer.

`Bits` holds bytes, bit strings and binary numbers, `Wrappers` optional values.
`dafny verify dfyconfig.toml` checks everything.

Bytes are `bv8`; numbers are unbounded, and 8-, 16- and 32-bit wrap-around is
written out where the code relies on it. Clocks, serial lines, USB and cards are
parameters or nondeterministic choices: a timeout may happen at any moment, a
transfer succeeds completely or fails.

## Where the code does less than it seems to promise

These are results, each with an exact condition or a witness.

- A lost acknowledgement is fatal to an XMODEM transfer, because the receiver
  rejects the repeated block instead of acknowledging it again
  (`Xmodem.LostAckIsFatal`; `Xmodem.SucceedsIff` says exactly what is survivable).
- The XMODEM test cannot see a change of the payload that keeps its sum modulo 256
  (`Xmodem.UnnoticedIff`); every change of a single byte is seen.
- When the CRC report is lost the host accepts the payload unchecked, and when the
  host's NAK is lost the board keeps a payload it should drop
  (`Boot.DamageAcceptedIff`).
- The device-tree patch can count one sentinel twice for an initrd size that is not
  a multiple of a block, which the SD boot path can pass. `Dtb.PatchIsExactIff` says
  for which trees, `Dtb.SizesSafeIff` for which sizes (`Dtb.OddSizeCounterexample`).
- The initrd slot of the card is larger than what is left of SDRAM behind the initrd's
  load address: with more than 0x80000 bytes the loader jumps without the whole
  initrd in memory (`Boot.ModeSdBoot`, `Boot.OversizedInitrd`).
- `device_select` accepts an index equal to the device count (`Jtag.Jtag.DeviceSelect`).
- `Jtag::toggleClk` outside the stable states leaves the shadow wrong
  (`Jtag.Jtag.ToggleClk`).
- `CmsisDAP::xfer` takes an answer for a success unless both the instruction and the
  status are wrong, so an error status alone goes unreported. Besides, `writeTMS` goes
  on after a flush in the middle that timed out, and `writeJtagSequence` ignores the
  result of its first flush. The contracts of both say exactly when a result is
  positive and when a positive result hides a failure (`CmsisDap.TmsPositive`,
  `CmsisDap.DataPositive`); `CmsisDap.HiddenFailures` has the witnesses. The FTDI
  `writeTMS` reports no failure at all.
- A zero-length `BPIFlash::write` inside a block erases that block, and at address
  zero, where the block count wraps, the whole device (`BpiFlash.EmptyWrite`).
- Block addresses of byte-addressed SD cards wrap above 4 GiB
  (`SdDriver.AddressRightIff`).

## Model

| member | source | states |
|---|---|---|
| `Tap.HopIsProgress` | tools/openFPGALoader/src/jtag.cpp:506-691 | every choice of the `set_state` switch is a legal TAP transition that brings the controller exactly one step nearer to the target, so the loop ends |
| `Tap.StepIsLipschitz` | tools/openFPGALoader/src/jtag.cpp:506-691 | no TAP transition whatever gets nearer by more than one step, so no other route could be shorter |
| `Tap.PathIsShortest` | tools/openFPGALoader/src/jtag.cpp:506-691 | from every state to every state the levels `set_state` sends lead there, and no shorter sequence does |
| `Tap.ResetOnPath` | tools/openFPGALoader/src/jtag.cpp:506-691 | a move resets the controllers on its way if and only if it goes to Test-Logic-Reset, from Select-DR to Run-Test/Idle, or from Select-IR to anything outside the IR column |
| `Tap.FiveOnesReset` | tools/openFPGALoader/src/jtag.cpp:403-410 | five or more clocks with TMS high reset any controller; four do not |
| `Tap.HoldIff` | tools/openFPGALoader/src/jtag.cpp:421-429 | clocking at the level `toggleClk` chooses keeps the controller where it is if and only if the state is stable or nothing is clocked |
| `Chain.SplitJoin` | tools/openFPGALoader/src/jtag.cpp:431-504 | cutting the chain's one long shift register into the devices' registers undoes joining them |
| `Chain.TapOfDrive` | tools/openFPGALoader/src/jtag.cpp:368-401 | all controllers follow the TMS wire alone |
| `Chain.ShiftData` | tools/openFPGALoader/src/jtag.cpp:412-419 | clocking data in a shift state returns what was nearest TDO and leaves the shifted string |
| `Scans.ChunksAreOneScan` | tools/openFPGALoader/src/jtag.cpp:431-463 | a scan split into chunks that end in the shift state is clock for clock the scan of the concatenation, and the bits that come back concatenate to those of the one scan |
| `Scans.IrScan` | tools/openFPGALoader/src/jtag.cpp:474-504 | from outside the IR column, an instruction scan with the selection's padding puts the opcode into the selected register and all ones (BYPASS) into every other |
| `Scans.DrScan` | tools/openFPGALoader/src/jtag.cpp:431-463 | with the other devices in BYPASS, a data scan puts the bits into the selected register and returns exactly the bits it had captured |
| `Scans.InstructionThenData` | tools/openFPGALoader/src/jtag.cpp:431-504 | an instruction scan followed by a data scan reads and writes exactly the selected device's register under that instruction, on a chain of any length |
| `Jtag.Cable.WriteTms` | tools/openFPGALoader/src/jtagInterface.hpp:50-56 | the cable contract: exactly these TMS levels at the given TDI |
| `Jtag.Cable.WriteTdi` | tools/openFPGALoader/src/jtagInterface.hpp:58-67 | the cable contract: exactly these bits, TMS high on the last one when it ends, and the TDO bits of those clocks |
| `Jtag.Cable.ToggleClk` | tools/openFPGALoader/src/jtagInterface.hpp:79-86 | the cable contract: exactly `n` clocks at the given levels |
| `Jtag.Jtag.FlushTms` | tools/openFPGALoader/src/jtag.cpp:386-401 | the pending levels reach the wire in order and the buffer is empty and zero again; the shadow stays right |
| `Jtag.Jtag.SetTms` | tools/openFPGALoader/src/jtag.cpp:368-384 | what is sent plus what is pending grows by exactly one level, whether or not the buffer had to be flushed, and unused buffer bits stay zero |
| `Jtag.Jtag.SetState` | tools/openFPGALoader/src/jtag.cpp:506-691 | terminates, ends in the target with the shortest path on the wire, and a right shadow stays right |
| `Jtag.Jtag.GoTestLogicReset` | tools/openFPGALoader/src/jtag.cpp:403-410 | the shadow is right afterwards whatever the real controllers were doing |
| `Jtag.Jtag.ReadWrite` | tools/openFPGALoader/src/jtag.cpp:412-419 | pending levels, then exactly the data clocks; the shadow follows out of the shift state |
| `Jtag.Jtag.ToggleClk` | tools/openFPGALoader/src/jtag.cpp:421-429 | a right shadow stays right if and only if the state is stable or nothing is clocked |
| `Jtag.Jtag.DeviceSelect` | tools/openFPGALoader/src/jtag.cpp:333-366 | for every index below the device count the padding fits the other devices; the index equal to the count is accepted too, wraps to a 32-bit padding length and is unusable |
| `Jtag.Jtag.InsertFirst` | tools/openFPGALoader/src/jtag.cpp:325-331 | the device goes in front, with its instruction length |
| `Jtag.Jtag.ShiftDr` | tools/openFPGALoader/src/jtag.cpp:431-463 | the clocks of the scan and the TDO bits of its payload, in every case; from a ready state the selected device receives the bits, all others zeros, and exactly its captured bits come back; the shadow stays right |
| `Jtag.Jtag.ShiftDrChunks` | tools/openFPGALoader/src/jtag.cpp:431-463 | any list of chunks, each but the last ending in SHIFT_DR, makes the clocks and returns the bits of one scan of the concatenation; from a ready state these are the captured register, and the selected device holds the concatenated bits |
| `Jtag.Jtag.ShiftIr` | tools/openFPGALoader/src/jtag.cpp:474-504 | the clocks of the scan and the TDO bits of its payload, in every case; from a ready state the selected device holds the opcode and all others BYPASS, and its capture pattern comes back; the shadow stays right |
| `Jtag.Jtag.InstructThenExchange` | tools/openFPGALoader/src/jtag.cpp:431-504 | an instruction scan ending anywhere between scans, PAUSE_IR included, and a data scan after it return exactly what the selected device captures under the opcode, and leave the bits sent in its register |
| `Jtag.Jtag.DetectChain` | tools/openFPGALoader/src/jtag.cpp:228-301 | on any chain and from any state of the controllers the result is the survey of the bits the devices present after reset, with or without an IDCODE; on a chain of devices with IDCODEs it is the outcome the next row describes; the lists agree with it, and the shadow is right |
| `Jtag.SurveyIsTheChain` | tools/openFPGALoader/src/jtag.cpp:228-323 | on a chain of devices with IDCODEs the devices nearest TDO are listed in chain order, each under its own code if the table has it, else under the code with bits 28 to 31 clear, up to the limit or the first that is not recognised: zeros there give a stuck TDO, ones the end, anything else an unknown device |
| `Wire.HeldLevelHolds` | tools/openFPGALoader/src/jtag.cpp:421-429 | in a stable state the level TMS was left at is the level that keeps the state |
| `Wire.ToggleHolds` | tools/openFPGALoader/src/gwu2x_jtag.cpp:238-263 | a cable that toggles TCK without driving TMS makes, in a stable state, exactly the TMS levels the JTAG layer asks for and keeps the controllers there |
| `Chain.DriveAlike` | tools/openFPGALoader/src/jtag.cpp:368-429 | two clock strings with the same TMS, and the same TDI wherever the controllers shift, drive the chain alike |
| `Drivers.DriverRefines` | tools/openFPGALoader/src/jtagInterface.hpp:50-86 | over any sequence of orders, a driver that carries each out alike leaves every chain as the contract does |
| `Drivers.DriverReturns` | tools/openFPGALoader/src/jtagInterface.hpp:58-67 | and when data is shifted in shift states, the TDO bits of every data order are those the contract promises |
| `Drivers.ScanSuits` | tools/openFPGALoader/src/jtag.cpp:431-504 | the orders of a whole scan, from any state outside the shift states or going on from an earlier chunk, are carried out alike by every driver that can carry out single orders |
| `Drivers.ScanOverDriver` | tools/openFPGALoader/src/jtag.cpp:431-504 | a scan over such a driver leaves the chain where the clocks of the scan leave it and returns the bits of its payload, so what is proved of the scans holds over it |
| `CmsisDap.InfoFields` | tools/openFPGALoader/src/cmsisDAP.cpp:25-27 | the information byte decodes to the count (64 written as zero), TMS level and capture flag it was made from |
| `CmsisDap.ParseSnoc` | tools/openFPGALoader/src/cmsisDAP.cpp:352-461 | a sequence put behind others in the report is read behind them |
| `CmsisDap.BatchSnoc` | tools/openFPGALoader/src/cmsisDAP.cpp:380-407 | adding a sequence to a report adds exactly its clocks and its answer bytes |
| `CmsisDap.Delivered` | tools/openFPGALoader/src/cmsisDAP.cpp:411-431 | answer bytes copied behind earlier ones put every TDO bit at its own index |
| `CmsisDap.ShapeNext` | tools/openFPGALoader/src/cmsisDAP.cpp:371-410 | every report has at most seven sequences and 63 payload bytes, and only the last sequence of a transfer is not whole bytes |
| `CmsisDap.CmsisDAP.Xfer` | tools/openFPGALoader/src/cmsisDAP.cpp:504-536 | the four fates of a transfer: executed and its answer returned; answered with a wrong instruction or an error status but not both, which is taken for success; timed out; broken. Whatever was not executed is remembered |
| `CmsisDap.CmsisDAP.Flush` | tools/openFPGALoader/src/cmsisDAP.cpp:485-495 | the waiting TMS bits, up to 256, go out as one sequence that decodes to them |
| `CmsisDap.CmsisDAP.WriteTMS` | tools/openFPGALoader/src/cmsisDAP.cpp:315-348 | what is on the wire and waiting grows by exactly the bits when all transfers are executed; the result is positive exactly when no flush in the middle returns an error and the one at the end, if any, something positive, and then hides a failure exactly when one of its transfers was not executed |
| `CmsisDap.CmsisDAP.WriteJtagSequence` | tools/openFPGALoader/src/cmsisDAP.cpp:352-461 | for every length the clocks made are exactly the requested ones in order, TMS inverted on the last alone when it ends; captured bits arrive at their own indices and later bytes are untouched; the result is positive exactly when every transfer after the first flush returns something positive, and then hides a failure exactly when one of its transfers was not executed |
| `CmsisDap.HiddenFailures` | tools/openFPGALoader/src/cmsisDAP.cpp:315-461 | four positive results that hide a failure: a time-out in the middle of 257 TMS bits, an error status in the answer to a flush and to a data transfer, and a first flush that broke off |
| `CmsisDap.CmsisDAP.WriteTDI` | tools/openFPGALoader/src/cmsisDAP.cpp:466-469 | the same with TMS low: the clocks, the captured bits at their own indices, later bytes untouched, and exactly when the result is positive |
| `CmsisDap.CmsisDAP.ToggleClk` | tools/openFPGALoader/src/cmsisDAP.cpp:474-481 | exactly the requested number of clocks at the requested levels |
| `CmsisDap.DataLevels` | tools/openFPGALoader/src/cmsisDAP.cpp:466-469 | the clocks of a data transfer are the ones the JTAG layer's cable contract asks for |
| `CmsisDap.DriverSuits` | tools/openFPGALoader/src/cmsisDAP.cpp:315-481 | every order is carried out as the contract promises, save that a move leaves TDI where it was, which matters only where the controllers shift |
| `CmsisDap.DriverIsAble` | tools/openFPGALoader/src/cmsisDAP.cpp:315-481 | so scans over it are covered by `Drivers.ScanOverDriver` |
| `Gwu2x.ParseAppend` | tools/openFPGALoader/src/gwu2x_jtag.cpp:369-456 | streams of whole commands are read one after the other |
| `Gwu2x.TckCommand` | tools/openFPGALoader/src/gwu2x_jtag.cpp:250-256 | the 16-bit count less one decodes to the count, for 1 to 65536 |
| `Gwu2x.ByteCommand` | tools/openFPGALoader/src/gwu2x_jtag.cpp:166-174 | 1 to 256 data bytes decode to their bits |
| `Gwu2x.RoundReply` | tools/openFPGALoader/src/gwu2x_jtag.cpp:192-235 | capturing commands followed by a readback return the packed TDO bits of their clocks |
| `Gwu2x.GowinGWU2x.StoreSeq` | tools/openFPGALoader/src/gwu2x_jtag.cpp:273-293 | the command goes behind the waiting ones, or these are sent first exactly when there is no room in 259 bytes |
| `Gwu2x.GowinGWU2x.Xfer` | tools/openFPGALoader/src/gwu2x_jtag.cpp:295-349 | all waiting bytes go out and exactly the bytes read back come in, or the failure is reported |
| `Gwu2x.GowinGWU2x.WriteTMS` | tools/openFPGALoader/src/gwu2x_jtag.cpp:101-139 | bytes sent plus bytes waiting decode to what was asked for before and exactly these bits at this TDI level; every failure is reported |
| `Gwu2x.GowinGWU2x.WriteTDI` | tools/openFPGALoader/src/gwu2x_jtag.cpp:147-236 | bytes sent plus bytes waiting decode to what was asked for before and exactly the data clocks; every TDO bit arrives at its own index, later bytes are untouched, every failure is reported |
| `Gwu2x.GowinGWU2x.ToggleClk` | tools/openFPGALoader/src/gwu2x_jtag.cpp:238-263 | exactly the requested number of clocks, at the levels the wires have |
| `Gwu2x.DataLevels` | tools/openFPGALoader/src/gwu2x_jtag.cpp:147-236 | a data transfer is the one the JTAG layer asks for if and only if TMS had been left low (or there is only the last bit) |
| `Gwu2x.DriverSuits` | tools/openFPGALoader/src/gwu2x_jtag.cpp:101-263 | every order is carried out as the contract promises if TMS was left low before data and at the hold level before toggling |
| `Gwu2x.DriverIsAble` | tools/openFPGALoader/src/gwu2x_jtag.cpp:101-263 | so scans over it are covered by `Drivers.ScanOverDriver` |
| `Mpsse.FtdiJtagMPSSE.MpsseWrite` | tools/openFPGALoader/src/ftdipp_mpsse.cpp:512-531 | everything waiting goes out, or the failure is reported |
| `Mpsse.FtdiJtagMPSSE.MpsseStore` | tools/openFPGALoader/src/ftdipp_mpsse.cpp:469-510 | a store of any length, split wherever the buffer fills up, puts exactly its bytes behind everything stored before; the fill level stays within the buffer |
| `Mpsse.FtdiJtagMPSSE.WriteTMS` | tools/openFPGALoader/src/ftdiJtagMPSSE.cpp:121-175 | the commands stored decode to exactly the TMS bits; failures are not reported |
| `Mpsse.TmsByte` | tools/openFPGALoader/src/ftdiJtagMPSSE.cpp:137-151 | the data byte carries the bits in order, the last one once more, zeros, and TDI in bit 7 |
| `Mpsse.FtdiJtagMPSSE.ToggleClk` | tools/openFPGALoader/src/ftdiJtagMPSSE.cpp:178-219 | exactly the requested number of clocks on either path |
| `Mpsse.FtdiJtagMPSSE.ClockLoop` | tools/openFPGALoader/src/ftdiJtagMPSSE.cpp:190-209 | the loop ends having stored commands for exactly the requested number of clocks, every count in range |
| `Xmodem.NumbersUnambiguous` | host/boot_linux.py:40-93 | of the blocks that can be on the line only the expected one carries the expected number modulo 256 |
| `Xmodem.SumIsTotal` | host/boot_linux.py:40-55 | the checksum is the sum of the payload's bytes, taken over the numbers, modulo 256 |
| `Xmodem.PayloadByteCaught` | sw/stage2_loader/main.c:164-186 | of a frame that passes the test no byte of the payload can be changed without being rejected |
| `Xmodem.OneByteIsDamage` | sw/stage2_loader/main.c:164-186 | a frame that was sent and had any one byte changed, header and checksum included, is rejected while its block or the next is expected |
| `Xmodem.UnnoticedIff` | sw/stage2_loader/main.c:164-186 | another payload in the place of the one that was sent passes if and only if it has the same length and the same sum modulo 256 |
| `Xmodem.RunKeepsInvariant` | sw/stage2_loader/main.c:137-196 | every run with losses, cuts, any damage the receiver rejects, delays and timeouts keeps sender and receiver at most one block apart, only those two blocks on the line, and memory the stored prefix |
| `Xmodem.TransferIsSafe` | host/boot_linux.py:40-93 | over every run memory is a prefix of the padded data, and a sender that reports success has had all of it stored |
| `Xmodem.SucceedsIff` | host/boot_linux.py:40-93 | at every moment of every run the transfer can still succeed if and only if no acknowledgement is lost, the receiver has not given up, and the sender has an attempt left or an intact copy or the acknowledgement is on its way |
| `Xmodem.HopefulSucceeds` | host/boot_linux.py:57-93 | from every such state there is a continuation to success that needs no further fault but the loss of late NAKs |
| `Xmodem.NoHopeRun` | sw/stage2_loader/main.c:137-196 | once that condition fails, it never holds again |
| `Xmodem.LostAckIsFatal` | sw/stage2_loader/main.c:182-190 | once an acknowledgement is lost while the sender is at work, no continuation ends in success: the receiver rejects the repeated block for ever |
| `Xmodem.TransferCanSucceed` | host/boot_linux.py:40-93 | without faults every transfer ends in success, whatever the data |
| `Boot.XmodemReceive` | sw/stage2_loader/main.c:137-196 | the loop over mutable variables does to memory and the reply line what the receiver of the protocol does with what it hears, including CAN and stray bytes |
| `Boot.Checksum` | sw/stage2_loader/main.c:164-174 | the running sum over the payload is the sum of its bytes modulo 256 |
| `Boot.RunHears` | sw/stage2_loader/main.c:137-196 | in every run of the protocol the receiver does what the loop does with the frames and timeouts it hears |
| `Boot.SentIsDelivered` | host/boot_linux.py:96-143 | what the host has sent with success is what the loader stores, and the loader goes on with it unless it is empty |
| `Boot.XmodemReceiveVerified` | sw/stage2_loader/main.c:199-224 | the payload is in memory, and its size is returned exactly if the loader goes on with it |
| `Crc32.ComputeCrc` | sw/stage2_loader/main.c:34-43 | the bit loop computes the specified register |
| `Crc32.TableEntry` | tools/openFPGALoader/src/dfuFileParser.cpp:28-71 | all 256 table entries are eight bit steps of their index |
| `Crc32.TableStepIsByteStep` | tools/openFPGALoader/src/dfuFileParser.cpp:157-159 | one table step equals eight bit steps, for every register and byte |
| `Crc32.ComputeDfuCrc` | tools/openFPGALoader/src/dfuFileParser.cpp:157-159 | for every byte string the table loop equals the bit loop without its final complement |
| `Crc32.UpdateIsSerial` | sw/stage2_loader/main.c:34-43 | the bytewise loop is the bit-serial division register |
| `Crc32.BurstDetected` | sw/stage2_loader/main.c:34-43 | two messages of equal length that differ only within 32 consecutive bits have different CRCs, at any length and position |
| `Crc32.FourByteDamageDetected` | sw/stage2_loader/main.c:34-43 | damage to at most four consecutive bytes always changes the CRC |
| `Crc32.LeadingZeroDetected` | sw/stage2_loader/main.c:34-43 | a zero byte in front of a message changes its CRC, whatever the message, because the register starts from ones |
| `Crc32.Residue` | sw/stage2_loader/main.c:34-43 | every message followed by its CRC, least significant byte first, has the CRC 0x2144DF1C |
| `Boot.HandshakeCatchesBursts` | host/boot_linux.py:96-140 | when both messages arrive, such damage makes host and board refuse the payload, and an undamaged payload makes both accept it |
| `Boot.DamageAcceptedIff` | sw/stage2_loader/main.c:199-224 | the host accepts a damaged payload if and only if the CRC report is lost; the board drops it if and only if both the report and the host's answer arrive |
| `Boot.IntactAccepted` | host/boot_linux.py:96-143 | a payload stored as it was sent is accepted by both sides whatever is lost |
| `Dtb.PatchInitrdEnd` | sw/stage2_loader/main.c:365-385 | the loop that rewrites the array it scans is the one-pass scan function |
| `Dtb.PatchIsExactIff` | sw/stage2_loader/main.c:365-385 | it patches all original sentinels, nothing else, and returns their number, if and only if none is followed by bytes that complete another with the address written |
| `Dtb.BlockSizesAreClean` | sw/stage2_loader/main.c:365-385 | an initrd of whole 128-byte blocks ending within SDRAM always meets that condition, whatever the device tree |
| `Dtb.OnePatchIff` | sw/stage2_loader/main.c:365-385 | the loop counts one, and then leaves the tree as it should be, if and only if there is one sentinel and it is not followed by such bytes |
| `Dtb.SizesSafeIff` | sw/stage2_loader/main.c:365-385 | the initrd sizes for which every device tree meets that condition are exactly those where no end of the four bytes written is the beginning of a sentinel |
| `Dtb.UnsafeMiscounts` | sw/stage2_loader/main.c:365-385 | for every other size every tree that contains a certain trap of at most seven bytes is patched more often than it has sentinels |
| `Dtb.OddSizeCounterexample` | sw/stage2_loader/main.c:387-444 | such a tree of one sector, as the SD boot path passes it: one sentinel, but not one patch, so that the loader halts |
| `U32.BigEndianRoundTrip` | sw/stage2_loader/main.c:367-376 | a devicetree cell decodes to the 32-bit number it was made from |
| `Boot.ModeLinux` | sw/stage2_loader/main.c:447-541 | with payloads that fit, the loader jumps if and only if it accepts all three and the tree has exactly one sentinel; memory then holds kernel and initrd as received, the initrd where the tree says it starts, and the tree with only its sentinel changed, into the address one past the initrd |
| `Boot.BootLinux` | sw/stage2_loader/main.c:447-541 | when the host reported success for all three transfers, whatever happened on the lines, the loader jumps if and only if no file is empty and the tree has one sentinel; memory then holds the padded kernel, the padded initrd, and the padded tree whose one changed cell is the address one past the initrd |
| `Boot.PatchAnnounces` | sw/stage2_loader/main.c:365-385 | the patched cell, read as the kernel reads it, is the address of the byte behind the initrd in memory, for any size, in 32-bit arithmetic |
| `Boot.Survives` | sw/stage2_loader/main.c:447-541 | each region is undisturbed by every later step |
| `Boot.ModeSdBoot` | sw/stage2_loader/main.c:387-444 | when image and tree stay clear of the next region, as every packed card's do, the loader jumps if and only if the card can be read and the tree is patched once, and then the patched cell is the address one past the initrd, and SDRAM holds the image, the patched tree and the initrd if and only if the padded initrd has at most 0x80000 bytes |
| `Boot.PackThenBoot` | host/sd_pack.py:45-83 | the same of the files given to `sd_pack`, for every successful pack followed by a boot |
| `Boot.OversizedInitrd` | host/sd_layout.py:18-33 | a kernel, tree and initrd of 524289 bytes that fit their slots and make the loader jump with an initrd that does not fit SDRAM |
| `U32.U32RoundTrip` | sw/stage2_loader/sd.c:355-361 | little-endian words decode to what was encoded |
| `U32.PackedBytes` | sw/stage2_loader/sd.c:355-361 | byte k of a little-endian word has the weight 256 to the power of k |
| `SdBlob.HeaderRoundTrip` | host/sd_layout.py:41-71 | parsing a header that was built gives its sizes and the fixed layout |
| `SdBlob.HeaderOnCard` | host/sd_layout.py:41-51 | where each field lies in the sector and what it holds, byte offsets and layout constants written out |
| `SdBlob.ReadManyBytes` | sw/stage2_loader/sd.c:428-435 | what is read is what the sectors hold, byte by byte |
| `SdBlob.BootsIff` | sw/stage2_loader/main.c:387-444 | from a card with the right header SD boot reads the files if and only if their slots hold them |
| `SdBlob.UpdateBootsIff` | host/sd_update.py:27-90 | after any update SD boot reads the files if and only if every slot left alone already held its file, whatever stale sectors follow the data |
| `SdBlob.UpdateRefinesPack` | host/sd_update.py:27-90 | SD boot reads after the update what it reads after a full repack of any card if and only if the slots left alone already held their files |
| `SdBlob.MultiSegWrite` | host/sd_proto.py:220-278 | success means exactly the segments are written and their counts are in range; a sound card and line always succeed then; a failure leaves a part of the write, from its beginning |
| `SdBlob.UpdateSd` | host/sd_update.py:27-90 | every refusal and its order, the layout field by field; a refusal before the write leaves the card alone, a failure during it leaves a part written, success writes exactly the header and the chosen slots |
| `SdBlob.PackSd` | host/sd_pack.py:45-83 | refuses what does not fit; after success the files lie byte by byte from sectors 1, 4001 and 4009 on and SD boot reads them; a failure leaves a part written |
| `SdBlob.PackThenUpdate` | host/sd_update.py:27-90 | a card that was packed is accepted by an update of files that fit, and when the files left alone are the packed ones SD boot then reads the new files |
| `SdBlob.WriteAllHolds` | host/sd_proto.py:220-278 | a range that no other segment overlaps holds its data after the write if and only if it was among the segments or already held it |
| `SdBlob.WriteAllKeeps` | host/sd_proto.py:220-278 | sectors outside all segments keep their contents |
| `SdWire.RunKeepsInvariant` | sw/stage2_loader/sd.c:363-405 | every interleaving of host and loader, with timeouts and with sector writes that fail before or after the card took the sector, stays in lock step |
| `SdWire.ReturnMeansWritten` | host/sd_proto.py:220-278 | over every run a host that returns normally has had every segment stored and nothing else |
| `SdWire.AlwaysAPrefix` | sw/stage2_loader/sd.c:363-405 | at every moment the card is the initial card with a prefix of the sector writes applied |
| `SdWire.NothingPendingAtSend` | host/sd_proto.py:241-256 | when the host sends a sector no reply is pending and exactly the sectors before it are stored |
| `SdWire.OthersUntouched` | sw/stage2_loader/sd.c:363-405 | sectors outside all segments are untouched at every moment of every run |
| `SdWire.WriteCanSucceed` | host/sd_proto.py:220-278 | when nothing fails the host returns, with everything on the card |
| `SdDriver.Sd.SdCmd` | sw/stage2_loader/sd.c:58-76 | at most 23 exchanges whatever the card answers; a conforming card's R1 byte is returned and what follows it is still to come |
| `SdDriver.Sd.SdInit` | sw/stage2_loader/sd.c:78-142 | any card: at most 94120 exchanges and chip-select released on every exit; a conforming card, which checks the CRC of the first two commands, takes ACMD41 only after CMD55, does not get ready for a host without high capacity if it has it, and takes block commands only when ready and told its block length, keeps its contents and succeeds if and only if it is ready within 2000 tries (and is of version 2 if it has high capacity), and is then usable and addressed the right way |
| `SdDriver.Sd.SdReadBlock` | sw/stage2_loader/sd.c:144-167 | any card: bounded and released; a conforming card: success returns exactly the stored block, a prompt card succeeds on every block it has, and the buffer is unchanged on failure |
| `SdDriver.Sd.SdWriteBlock` | sw/stage2_loader/sd.c:171-198 | any card: bounded and released; a conforming card: on success, and on a busy time-out, exactly this block is stored; on the other failures nothing changes |
| `SdDriver.Sd.WriteThenRead` | sw/stage2_loader/sd.c:144-198 | a written block is read back unchanged and no other sector differs |
| `SdDriver.Sd.FromPowerUp` | sw/stage2_loader/sd.c:78-198 | initialisation, a write and a read composed: a prompt card that gets ready in time returns the block, whichever way it is addressed |
| `SdDriver.AddressRightIff` | sw/stage2_loader/sd.c:146-147 | for byte-addressed cards the 32-bit product names the block that was meant if and only if it lies below block 2^23 |
| `BpiBridge.WritePacketWrites` | tools/openFPGALoader/bpiOverJtag/bpiOverJtag_core.v:100-267 | a write packet makes the bridge perform exactly the bus write it was built from |
| `BpiBridge.BurstPacketWrites` | tools/openFPGALoader/bpiOverJtag/bpiOverJtag_core.v:100-267 | a burst packet makes the bridge write exactly its words at consecutive addresses, for up to 65535 words |
| `BpiBridge.BurstEqualsPackets` | tools/openFPGALoader/src/bpiFlash.cpp:512-522 | one burst has the same effect as one packet per word |
| `BpiBridge.ReadPacketReads` | tools/openFPGALoader/src/bpiFlash.cpp:54-97 | bits 51 to 66 of the answer are the flash word at the packet's address, and nothing is written |
| `BpiBridge.WritePacketIsNumber` | tools/openFPGALoader/src/bpiFlash.cpp:105-113 | the 64-bit number sent least significant bit first is the write packet |
| `BpiBridge.ReadPacketIsNumber` | tools/openFPGALoader/src/bpiFlash.cpp:66-74 | the same for the read packet |
| `BpiBridge.BuildBurst` | tools/openFPGALoader/src/bpiFlash.cpp:162-219 | the packed bytes are the burst packet, bit for bit |
| `Bits.ReverseByteReverses` | tools/openFPGALoader/src/bpiFlash.cpp:22-28 | the three swaps reverse the bits, and doing it twice undoes it |
| `BpiFlash.ProgramErased` | tools/openFPGALoader/src/bpiFlash.cpp:494-525 | programming erased words stores the data and touches nothing else |
| `BpiFlash.FillBuffer` | tools/openFPGALoader/src/bpiFlash.cpp:505-522 | every data word is legal in the command state machine and the device's buffer ends up holding them in order |
| `BpiFlash.ChunkFits` | tools/openFPGALoader/src/bpiFlash.cpp:456-477 | every chunk has 1 to 512 words and lies in one block of the erased range, for even and odd addresses |
| `BpiFlash.ImageRoundTrip` | tools/openFPGALoader/src/bpiFlash.cpp:398-424 | reading back what a write leaves gives the data, at any address and length |
| `BpiFlash.ImageOnBus` | tools/openFPGALoader/src/bpiFlash.cpp:489-504 | bit by bit, what a write leaves on the data bus: the byte order, the reversal within each byte, and the ones beside an odd last byte |
| `BpiFlash.ReadOnBus` | tools/openFPGALoader/src/bpiFlash.cpp:411-418 | bytes carried by the words in that way are exactly the bytes that are read |
| `BpiFlash.ImageElsewhere` | tools/openFPGALoader/src/bpiFlash.cpp:432-443 | words outside the touched blocks are unchanged and unwritten words inside them are 0xFFFF |
| `BpiFlash.EmptyWrite` | tools/openFPGALoader/src/bpiFlash.cpp:432-443 | a write of nothing changes nothing if and only if its address is a block boundary other than zero or what it erases is erased already |
| `BpiFlash.BPIFlash.BpiWrite` | tools/openFPGALoader/src/bpiFlash.cpp:99-160 | one legal bus write, at the low 25 bits of the address, reaches the device |
| `BpiFlash.BPIFlash.BpiRead` | tools/openFPGALoader/src/bpiFlash.cpp:54-97 | the word the device drives comes back |
| `BpiFlash.BPIFlash.WaitReady` | tools/openFPGALoader/src/bpiFlash.cpp:291-325 | succeeds if and only if the device finishes within the polls allowed and reports no error, and then leaves it in read-array mode |
| `BpiFlash.BPIFlash.UnlockBlock` | tools/openFPGALoader/src/bpiFlash.cpp:327-334 | exactly the addressed block is unlocked |
| `BpiFlash.BPIFlash.EraseBlock` | tools/openFPGALoader/src/bpiFlash.cpp:336-376 | on success exactly the block is ones; on failure nothing outside it has changed |
| `BpiFlash.BPIFlash.ProgramChunk` | tools/openFPGALoader/src/bpiFlash.cpp:505-534 | on erased words stores exactly the chunk; on failure nothing outside the block has changed |
| `BpiFlash.BPIFlash.WriteData` | tools/openFPGALoader/src/bpiFlash.cpp:426-545 | on success every byte lies in its word with the first of each pair on D[15:8], most significant bit lowest, an odd last byte beside ones, and the other words of the touched blocks are ones; on failure nothing outside them has changed; a device that works in time never makes it fail |
| `BpiFlash.BPIFlash.ReadData` | tools/openFPGALoader/src/bpiFlash.cpp:398-424 | the bytes the words of the range carry in that order, with nothing changed |
| `BpiFlash.BPIFlash.WriteThenRead` | tools/openFPGALoader/src/bpiFlash.cpp:398-545 | a successful write followed by a read returns exactly the data |
| `Max10.AddressMsbFirst` | tools/openFPGALoader/src/altera.cpp:796-814 | the 23 address bits are clocked most significant first |
| `Max10.AddressArrives` | tools/openFPGALoader/src/altera.cpp:796-814 | the device receives the address that was asked for |
| `Max10.WrittenAt` | tools/openFPGALoader/src/altera.cpp:633-674 | written words are masked by the data, all others unchanged |
| `Max10.ErasedThenSame` | tools/openFPGALoader/src/altera.cpp:633-717 | on an erased region the data is stored, so nothing differs |
| `Max10.DifferingZero` | tools/openFPGALoader/src/altera.cpp:676-717 | the count is zero if and only if every word agrees |
| `Max10.Altera.WriteXFM` | tools/openFPGALoader/src/altera.cpp:633-674 | skipping words of all ones and re-sending the address only when needed leaves what writing every word at its address would, on any contents; byte by byte the region is masked by the data and the rest is as it was |
| `Max10.Altera.VerifyXFM` | tools/openFPGALoader/src/altera.cpp:676-717 | returns exactly the number of words that differ, zero if and only if every byte agrees, and changes nothing |
| `Max10.Altera.WriteThenVerify` | tools/openFPGALoader/src/altera.cpp:633-717 | programming an erased region and verifying it counts no error, and the region then holds the data byte by byte |

## Left out

- The ESP USB-JTAG encoder: a fourth packet language of the same kind as the three modelled.
- `FtdiJtagMPSSE::writeTDI` and everything on top of it, J-Link, Anlogic and DirtyJTAG cables.
- `setClkFreq` of the cables: it shares the buffer with pending commands and is used only when that is empty.
- Transfers without a transmit buffer (`tx` or `tdi` null): the bits sent are then whatever the buffer held.
- Scans resumed from Exit1, Pause or Exit2 on chains of several devices: the padding is sent again without a capture.
- Loss of a frame's SOH byte alone: the receiver then looks for EOT and CAN inside the payload, and only the CRC guards that.
- Runs in which damage keeps a frame's checksum (`Xmodem.UnnoticedIff`): memory then differs from what was sent, and the CRC handshake decides (`Boot.HandshakeCatchesBursts`).
- The CRC report as hexadecimal text, and the other messages printed on the line: a report arrives as a number or not at all.
- USB, HID and serial plumbing, partial transfers, delays, progress bars and verbose output.
- Stage-2 mode `w` and power loss during an update: both can leave a card that does not boot.
- `BPIFlash::detect`, `bulk_erase` and the printed check of the first 32 words; multi-bank behaviour of the flash.
- `max10_program`, sector selection and erasing of the MAX10; the byte-reversal table of `configBitstreamParser.cpp` is taken to be the bit reversal it is named for.
- The order in which a device program interleaves with the bridge's remaining clocks: the device takes a packet's writes when the packet ends.
- Header parsers of vendor bitstreams, board and cable tables, the Linux driver and the initramfs.
- SdBlob.MultiSegWrite: does not model the byte stream, because the same write over the line is the subject of `SdWire`.
- Boot.ModeSdBoot: says nothing of memory when a header makes the image or the tree run into the next region, which no header of `sd_pack` or `sd_update` does; stores past the end of SDRAM have no effect here.
- BpiFlash.BPIFlash.Shift: does not model the chain around the bridge, because delivering a packet as one data scan of USER1 is what `Jtag.Jtag.ShiftDr` states.
- Jtag.Cable.WriteTms: cannot fail, because `Jtag` goes on whatever the cable reports; what a failure loses is in the drivers' own contracts.
- Jtag.Cable.WriteTdi: cannot fail, for the same reason; when `end` is false it keeps TMS low, the level it has in the shift states from which it is called.
- Jtag.Cable.ToggleClk: cannot fail, because `Jtag::toggleClk` then throws and nothing more is done.
- Mpsse.FtdiJtagMPSSE.WriteTMS: is not tied to the cable contract as a whole driver, because the FTDI data transfer is left out.
