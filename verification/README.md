# Verification of the HackRF firmware and host logic

This project models the parts of the HackRF firmware and host tools, with the Bluetooth LE sniffer on
top of them, that hold real algorithms, protocols and arithmetic, and proves properties of them that
span functions and whole runs. `dafny verify dfyconfig.toml` checks everything.

- **XSVF player** (`Tap`, `Ports`, `LenVals`, `Masking`, `Shifting`, `Scans`, `Waiting`, `Xsvf`, `Player`). A
  bytecode interpreter drives a JTAG TAP and keeps its own copy of the TAP state. The pins are a trace of
  (TMS, TDI) on rising TCK edges, the device is any function from the edges so far to TDO, and the
  controller is the 16-state machine of section 6.1 of IEEE Std 1149.1-2001. `Xsvf.Performed` says on values
  what each command does to program, settings and wire, `Scans.ShiftDone` what a shift with its
  retries and waits does. Main results: `Player.Execute`, `Waiting.XwaitExactly`.
- **USB transfer queue** (`UsbQueue`). The free and active lists as linked lists in a pool; the thread's
  LL/SC loop, the completion interrupt, flushes and the device interleave step by step. Main results:
  `UsbQueue.Queue.Step`, `UsbQueue.Queue.RunAll`, and for progress `UsbQueue.Queue.CompleteAll`. For each
  queue one context allocates.
- **Host rings** (`PacketRing`, `StreamRing`). Producer and consumer interleaved statement by statement: what
  any schedule keeps (`Run`), and what given steps accomplish in every schedule that holds them (`Accept`,
  `Take`, `Drain`).
- **getopt** (`Getopt`). The in-place permutation of argv against a left-to-right reading of the original
  list. Main results: `Getopt.Scan`, `Getopt.PermutingKeepsTheMeaning`.
- **Synthesizers and clocks** (`Tuning.dfy`, `ClockRate.dfy`). Fixed-width arithmetic with exactness and
  error bounds. Main results: `Tuning.Tuner.SetFreq`, `ClockRate.SampleRateFracSet`.
- **Bluetooth LE** (`BleCrc`, `BleFollow.dfy`). The CRC table against the bit-serial register of section
  3.1.1 of Bluetooth Core 4.2, Vol 6 Part B, burst detection, and the hop state machine. Main results:
  `BleCrc.BurstDetected`, `Follow.Follower.FollowConnection`.
- **Sweep and flash** (`Sweep.dfy`, `Dwell.dfy`, `SpiFlash`). Planning, request, stepping, dwell and output
  bands of a frequency sweep, end to end in `SweepMode.SweepRanges`; two-stage splitting of flash writes.

Things the proofs show about the code as it is:

- An XWAIT in a state that TMS does not hold may leave the tracked state wrong. The exact condition for
  the whole command, wait and closing move, is `Waiting.XwaitSlips`, proved in `Waiting.XwaitExactly`: the
  closing move mends every wait in a Capture state that it leaves, some waits that end in Run-Test/Idle,
  and everything if it goes to Test-Logic-Reset. `Xsvf.SlippingProgram` is a program that fails. For a
  whole run only the commands begun count (`Player.Execute`), not bytes that look like an XWAIT.
- The retry error of the XSVF player is lost for a repeat count of 255, where the byte counter wraps
  (`Player.Player.Shift`), and a run-test time above 0x66666666 becomes negative with the first retry, so that
  nothing is waited (`Scans.StretchGrows`); a state byte above 0x0F makes the path loop endless (`Tap.WalkArrives`).
- A frequency whose whole megahertz overflow 32 bits is accepted by `set_freq` (`Tuning.AcceptedTooHigh`;
  an input is in `Tuning.FarTooHighAccepted`).
- `set_freq_explicit` accepts LO frequencies from 84.375 MHz on, but cuts them to whole megahertz: below
  85 MHz the VCO is not in its octave (`Tuning.Tuner.SetFreqExplicit`, `Tuning.LowestExplicitLo`).
- The sweep output covers a planned range iff it ends by 7265 MHz, and the receiver follows it iff it
  ends by 7258 MHz (`SweepPlan.OutputTiles`, `SweepPlan.TunerFollows`, `SweepPlan.HighestRange`).
- A tuning of the sweep gets fewer blocks than its dwell count iff, in some pass of the loop with at least
  2 and at most that many blocks queued for it, the sample counter crosses from the second half of the
  buffer to the first between the two readings (`SweepDwell.FullDwell`, `SweepMode.Sweeper.Run`; a run is in
  `SweepDwell.LosingRun`). That the counter may go on between the readings is an assumption of the model:
  `usb_bulk_buffer_offset` is not declared in this tree, and the table at
  `firmware/hackrf_usb/hackrf_usb.c:85` has the handler of the sweep request commented out.
- The list that getopt leaves reads differently from the given one iff an option lacked its argument while
  there were non-options (`Getopt.PermutingKeepsTheMeaning`).
- The comment above `crc_check` gives the opposite result; the code returns 1 iff the checksum is right.

## Model

| member | source | states |
|---|---|---|
| Player.Execute | firmware/common/xapp058/micro.c:1734-1761 | For every program, device and initial controller state: the log has a moment for each command begun, and between two moments the command has done exactly what the format says (Xsvf.Performed: operands, settings, edges and waits, retries, what was captured, errors), the last command too; at each moment the state of every controller of the standard that saw the clock edges is known, and it is the tracked state at the end unless one of the commands begun was an XWAIT that slips; it stops only at a command whose operands are missing, name no state or are unfit, and ends with success only when complete. |
| Player.Player.RunAll | firmware/common/xapp058/micro.c:1740-1743 | The loop: one moment for each command begun; every command but the last returned and has done its work, the last one too if it returned. |
| Xsvf.InStepUntil | firmware/common/xapp058/micro.c:1734-1761 | At every command before the first XWAIT that slips, player and controller are in step; that one takes them out of step. |
| Xsvf.ReadsOnce | firmware/common/xapp058/micro.c:1683-1709 | Where a command ends, and the register length and data mask after it, are determined by the program. |
| Xsvf.DoesReads | firmware/common/xapp058/micro.c:1683-1709 | A command that has done its work without error ends where its operands do, so the beginnings of all commands of a run are those of the program. |
| Xsvf.SlippingProgram | firmware/common/xapp058/micro.c:1604-1641 | A program that fails: three microseconds in Update-DR on the way to Pause-DR. |
| Waiting.MendedExactly | firmware/common/xapp058/micro.c:1604-1641 | After a wait of n edges in a state that TMS does not hold, the closing move brings player and controller together iff it leaves Capture, or goes to Run-Test/Idle from Select-DR after one edge, or from Exit or Update after three or more. |
| Waiting.XwaitExactly | firmware/common/xapp058/micro.c:1604-1641 | From in step a whole XWAIT leads out of step iff it waits for a positive time in a state that TMS does not hold and its closing move does not mend that, or there is none. |
| Player.Player.Initialize | firmware/common/xapp058/micro.c:1658-1671 | The reset sequence puts player and controller in step, whatever the controller's state was; the settings are the initial ones. |
| Player.Player.Run | firmware/common/xapp058/micro.c:1683-1709 | A command begun in step ends in step iff it is not an XWAIT that slips; when it returns it has done what the format says; it halts only if its operands say so; after an error or completion nothing more goes out. |
| Player.Player.DoCmd | firmware/common/xapp058/micro.c:296-325 | The command byte selects the effect that the format gives that command (one case per command), every other byte is an illegal command; and exactly when an XWAIT leads out of step. |
| Player.Player.ResetSequence | firmware/common/xapp058/micro.c:507-519 | Six edges, after which every controller is in Test-Logic-Reset. |
| Player.Player.GotoTapState | firmware/common/xapp058/micro.c:499-702 | Reaches every state of the diagram in exactly Distance edges, or refuses Exit2 targets and emits nothing; a walk from a Pause state to itself leaves it and comes back; where that takes a controller that was not in the tracked state. |
| Player.Player.WalkTo | firmware/common/xapp058/micro.c:541-699 | The path loop ends at its target, after exactly Distance edges. |
| Player.Player.GotoStateByte | firmware/common/xapp058/micro.c:499-702 | For a byte of the program: the target is reached, refused, or (above 0x0F) never reached. |
| Player.Player.WaitInState | firmware/common/xapp058/micro.c:1604-1641 | A wait from in step ends in step iff it is not positive or the state is stable; and where it leaves the controller. |
| Player.Player.ScanOnce | firmware/common/xapp058/micro.c:851-872 | One pass goes to the Shift state, shifts exactly the data's edges there, and captures TDO. |
| Player.Player.LeaveShift | firmware/common/xapp058/micro.c:875-903 | A retry takes the detour through Pause-DR and Shift-DR and a wait a quarter longer, and else the shift goes to the end state; then a time to wait is clocked in Run-Test/Idle, edge for edge; and how many edges it all takes. |
| Player.Player.RunTest | firmware/common/xapp058/micro.c:898-904 | From any state to Run-Test/Idle, and then exactly as many edges there as microseconds asked for. |
| Scans.MismatchCaptured | firmware/common/xapp058/micro.c:858-865 | Comparing the captured buffer under the mask finds a mismatch iff the device drove a masked bit otherwise than expected before its edge. |
| Scans.StretchGrows | firmware/common/xapp058/micro.c:888-889 | The wait of a retry is a quarter longer iff the time is at most 0x66666666; a longer one becomes negative, and nothing is waited. |
| Player.Player.ScanAndCompare | firmware/common/xapp058/micro.c:851-865 | The shift and the comparison: a mismatch iff the device's answer differs from the expectation where the mask says; the captured bits and nothing else are written. |
| Player.Player.Attempt | firmware/common/xapp058/micro.c:849-905 | One attempt: the shift's edges go out in the Shift state, then, if it leaves, as many edges as the way to the end state or the retry detour takes, and the wait; it mismatches iff what the device drove disagrees with the expectation under the mask. |
| Player.Player.Attempts | firmware/common/xapp058/micro.c:849-906 | k retries, each after a mismatch and with a wait a quarter longer in 32-bit arithmetic, and the last attempt; at most maxRepeat; a mismatch at the end means that all of them were made; the byte counter wraps. |
| Player.Player.Shift | firmware/common/xapp058/micro.c:807-931 | A whole xsvfShift: no bits mean the wait alone; success iff nothing was expected or what the device drove in the last attempt agrees under the mask; on failure all repeat+1 attempts were made and the error is the retry error iff 0 < repeat < 255; where it ends and what was captured. |
| Player.Player.ShiftIr | firmware/common/xapp058/micro.c:1111-1190 | Reads the instruction and shifts it through the instruction register, ending as XENDIR said and with the run-test wait, or reports overflow above 256 bytes. |
| Player.Player.ShiftDr | firmware/common/xapp058/micro.c:1202-1218 | The edges of the data go out in Shift-DR, what the device drove before each of them is what is captured, there is no error iff that agrees with the expectation, and the retries and waits are those asked for. |
| Player.Player.DoXsir | firmware/common/xapp058/micro.c:1111-1145 | XSIR: the next byte is a length, the bytes after it go through the instruction register, and the run-test time is clocked in Run-Test/Idle. |
| Player.Player.DoXsir2 | firmware/common/xapp058/micro.c:1156-1190 | XSIR2: the same with a length of two bytes. |
| Player.Player.DoXsdr | firmware/common/xapp058/micro.c:1202-1218 | XSDR: the bytes that follow go through the data register, what the device drove meanwhile is checked against the expectation in force, with at most maxRepeat retries and the run-test wait, ending as XENDDR said. |
| Xsvf.DrDone | firmware/common/xapp058/micro.c:1202-1218 | Operands read and a shift that leaves all settings alone make the whole command. |
| Player.Player.DoXsdrtdo | firmware/common/xapp058/micro.c:1285-1303 | XSDRTDO: data, then the new expectation; no error iff what the device drove meets it. |
| Player.Player.ShiftExpecting | firmware/common/xapp058/micro.c:947-967 | The data come first and the expectation second, and what the device drove while the data went out is checked against it. |
| Player.Player.DoXsdrbce | firmware/common/xapp058/micro.c:1424-1442 | XSDRB, XSDRC stay in Shift-DR, XSDRE leaves it; nothing is expected. |
| Player.Player.DoXsdrtdobce | firmware/common/xapp058/micro.c:1455-1474 | XSDRTDOB, XSDRTDOC and XSDRTDOE: the same with an expectation and no mask. |
| Player.Player.DoXruntest | firmware/common/xapp058/micro.c:1227-1234 | Four bytes become the run-test time, in 32-bit two's complement. |
| Player.Player.DoXsdrsize | firmware/common/xapp058/micro.c:1259-1274 | Four bytes become the length; overflow iff its byte count exceeds 256; the model goes no further iff the length is negative or its byte count does not fit a short. |
| Player.Player.DoXsdrinc | firmware/common/xapp058/micro.c:1352-1410 | The values sent are the start value and, for each step, the deposit of its data into the sum with the address mask, each shifted, checked and waited for as by XSDR, up to the first error; exactly their bytes are consumed. |
| Player.Player.XsdrincStart | firmware/common/xapp058/micro.c:1357-1382 | The start value goes out, the mask's bits are counted and the number of steps is taken. |
| Xsvf.SteppedOn | firmware/common/xapp058/micro.c:1384-1398 | One more step: the values sent so far are the first of the sequence, each the deposit into the sum of the one before, and the last carries the error, if any. |
| Player.Player.XsdrincSteps | firmware/common/xapp058/micro.c:1378-1399 | After the loop the values of the sequence went out one after the other, all of them or those up to an error, and popcount(mask) bits of data were consumed per step. |
| Player.Player.XsdrincStep | firmware/common/xapp058/micro.c:1384-1398 | One step sends (TDI + address mask) mod 256^len with the next data deposited at the data mask's bits. |
| Player.Player.NextValue | firmware/common/xapp058/micro.c:1384-1392 | The next value is the parallel bit deposit of the next data into the sum, as numbers. |
| Player.Player.DoXstate | firmware/common/xapp058/micro.c:1484-1495 | Goes to the state that the byte names, or reports the illegal one. |
| Player.Player.DoXendxr | firmware/common/xapp058/micro.c:1506-1554 | XENDIR and XENDDR set their own end state, 0 or 1, and refuse every other byte. |
| Player.Player.DoXcomment | firmware/common/xapp058/micro.c:1564-1593 | Reads on to the first zero byte and no further. |
| Player.Player.DoXwait | firmware/common/xapp058/micro.c:1604-1641 | From in step it leads out of step exactly as XwaitExactly says; the time is clocked in the wait state; it ends in the end state unless that is an Exit2 state. |
| Player.Player.MoveWaitMove | firmware/common/xapp058/micro.c:1604-1641 | Move, wait, move: from in step out of step iff the wait slips; the time is clocked in the state that the first move reached; without end iff one of the bytes names no state. |
| Player.Player.ReadVal | firmware/common/xapp058/lenval.c:178-189 | Takes exactly the bytes asked for from the program, in order, or starves. |
| Tap.EntryLevelIsUnique | firmware/common/xapp058/micro.c:549-697 | Every state of the controller is entered on one TMS level only. |
| Tap.PathStepFollowsDiagram | firmware/common/xapp058/micro.c:549-697 | Each arm assigns the state that the controller really enters on the level it puts out. |
| Tap.PathStepApproaches | firmware/common/xapp058/micro.c:549-699 | The loop's measure: every step of a walk brings the target one edge nearer. |
| Tap.WalkArrives | firmware/common/xapp058/micro.c:549-699 | The path loop reaches its target, after exactly Distance edges, iff the byte names a state. |
| Tap.SixHighEdgesReset | firmware/common/xapp058/micro.c:507-519 | Six edges with TMS high reach Test-Logic-Reset from every state. |
| Tap.WaitKeepsState | firmware/common/xapp058/micro.c:1604-1641 | Clocking with TMS left as it entered a state keeps the state iff the state is Reset, Idle, Shift or Pause: the wait alone, without the closing move. |
| Tap.LeftForGood | firmware/common/xapp058/micro.c:1604-1641 | Clocking on in any other state leaves it and never comes back. |
| Ports.Port.SetPort | firmware/common/xapp058/ports.c:42-63 | A rising TCK is one edge of the trace with the present TMS and TDI; other pin writes add none. |
| Ports.Port.WaitTime | firmware/common/xapp058/ports.c:100-114 | One edge per microsecond, none for negative times, pins as before. |
| Ports.AfterHeld | firmware/common/xapp058/ports.c:100-114 | A wait is that many equal steps of the controller. |
| Shifting.ShiftByte | firmware/common/xapp058/micro.c:735-775 | One byte or what is left: its edges go out in order, the captured byte has the sampled levels. |
| Shifting.ShiftOnly | firmware/common/xapp058/micro.c:718-781 | Exactly numBits edges, least significant bit first, TMS raised on the last one if leaving; bit k captured is TDO before edge k, with zeros above. |
| Shifting.AfterShift | firmware/common/xapp058/micro.c:718-781 | The edges of a shift leave the controller in its Shift state or, when it is to leave, in Exit1. |
| Shifting.LevelIsRegisterBit | firmware/common/xapp058/ports.c:85-89 | What TDO shows before edge k is bit k of the register that stood in the chain. |
| Shifting.ShiftedContents | firmware/common/xapp058/micro.c:718-781 | What a scan register holds after some edges. |
| Shifting.ScanExchangesContents | firmware/common/xapp058/micro.c:718-781 | Shifting n bits through an n-bit register leaves the number shifted in the register and the register's old contents in the captured number, for every n. |
| LenVals.LenVal.Value | firmware/common/xapp058/lenval.c:15-28 | The big-endian number, in 32-bit two's complement. |
| LenVals.EqualLenVal | firmware/common/xapp058/lenval.c:53-83 | Equal iff all bits selected by the mask, or all bits without one, agree. |
| LenVals.LenVal.RetBit | firmware/common/xapp058/lenval.c:94-101 | The bit counted from the left is that bit of the big-endian number. |
| LenVals.LenVal.SetBit | firmware/common/xapp058/lenval.c:113-129 | Changes that bit and no other. |
| LenVals.ColumnsAdd | firmware/common/xapp058/lenval.c:140-169 | Column addition adds the numbers, up to the carry out of the top byte. |
| LenVals.ColumnsModulo | firmware/common/xapp058/lenval.c:140-169 | The digits are the sum modulo 256^len. |
| LenVals.AddVal | firmware/common/xapp058/lenval.c:140-169 | The buffer gets the column sum of the old contents, also when it is one of the operands. |
| Bytes.MaskedEquality | firmware/common/xapp058/lenval.c:71-79 | Two bytes are equal under a mask iff they agree in all its bits. |
| Masking.DoSdrMasking | firmware/common/xapp058/micro.c:981-1043 | Each bit is the next data bit where the data mask is set, counted from the lowest, and the sum's bit elsewhere. |
| Masking.DepositBits | firmware/common/xapp058/micro.c:997-1042 | The same for the value in place, byte by byte from the last. |
| Masking.DepositByte | firmware/common/xapp058/micro.c:1000-1041 | One byte: its masked bits take the next data bits in order, and the reader of the data moves on by as many. |
| Masking.CountMaskBits | firmware/common/xapp058/micro.c:1369-1382 | The number of bits of the mask. |
| Masking.PdepBit | firmware/common/xapp058/micro.c:981-1043 | The deposit defined on numbers, bit by bit. |
| Masking.PdepIsUnique | firmware/common/xapp058/micro.c:981-1043 | No other number has those bits. |
| Masking.MaskingMeaning | firmware/common/xapp058/micro.c:981-1043 | As numbers, the step yields the parallel bit deposit of the data into (TDI + address) mod 256^len. |
| Masking.EachDataBitUsed | firmware/common/xapp058/micro.c:1384-1392 | Each of the first popcount(mask) data bits lands on a bit of the mask. |
| Masking.DataBitsUsedOnce | firmware/common/xapp058/micro.c:1384-1392 | No data bit lands on two. |
| UsbQueue.Partition | firmware/common/usb_queue.c:46-118 | Free list, active list and the transfers in hand partition the pool. |
| UsbQueue.Acyclic | firmware/common/usb_queue.c:46-118 | No list runs into itself. |
| UsbQueue.TakeKeeps | firmware/common/usb_queue.c:63-77 | Taking the head of the free list keeps the partition. |
| UsbQueue.AppendKeeps | firmware/common/usb_queue.c:93-107 | Appending to the active list keeps the partition and the order. |
| UsbQueue.UnlinkKeeps | firmware/common/usb_queue.c:212-215 | Taking the head of the active list keeps the partition; the transfer carries the oldest pending job. |
| UsbQueue.ReleaseKeeps | firmware/common/usb_queue.c:80-88 | Freeing keeps the partition. |
| UsbQueue.Queue.constructor | firmware/common/usb_queue.c:46-60 | The loop over an array of arbitrary contents links all of it into the free list. |
| UsbQueue.Queue.ThreadBegin | firmware/common/usb_queue.c:132-134 | Scheduling fails iff the free list is empty. |
| UsbQueue.Queue.ThreadStoreExclusive | firmware/common/usb_queue.c:73-74 | The exclusive store takes the head, or fails and starts over if an interrupt intervened. |
| UsbQueue.Queue.ThreadEnqueue | firmware/common/usb_queue.c:156-166 | The job that Begin gave is scheduled last; the old tail is returned. |
| UsbQueue.Queue.EndpointQueueTransfer | firmware/common/usb_queue.c:93-107 | Walks to the tail and links the transfer there. |
| UsbQueue.Queue.Flush | firmware/common/usb_queue.c:109-118 | Every pending job is flushed and none is called back; all transfers return to the free list. |
| UsbQueue.Queue.FreeTransfer | firmware/common/usb_queue.c:80-88 | The transfer becomes the head of the free list, all others stay. |
| UsbQueue.Queue.IsrEnter | firmware/common/usb_queue.c:191-195 | The interrupt starts at the head of the active list, and all jobs so far were scheduled before it. |
| UsbQueue.Queue.IsrRound | firmware/common/usb_queue.c:197-221 | A finished head is taken off and its job called back, with maximum length minus the remaining bytes; otherwise the interrupt ends, and the active list is empty, headed by an unfinished transfer, or holds only jobs scheduled since its last callback began. |
| UsbQueue.Queue.Complete | firmware/common/usb_queue.c:212-221 | The finished head is the transfer of the oldest pending job; the head is advanced before its callback. |
| UsbQueue.Queue.IsrRelease | firmware/common/usb_queue.c:223-225 | Only after its callback is the transfer freed, and the loop goes on with the next. |
| UsbQueue.Queue.IsrSchedule | firmware/common/usb_queue.c:125-167 | Scheduling from a callback takes a free transfer and appends it, or fails and changes nothing. |
| UsbQueue.Queue.DeviceComplete | firmware/common/usb_queue.c:198-210 | The device's part: status and remaining bytes of a pending transfer that is still active. |
| UsbQueue.Queue.Step | firmware/common/usb_queue.c:46-227 | Each step of each context does exactly what its program counter says, if it is that context's turn, and nothing else (Did); it keeps the invariant; jobs, fates and calls are only appended to; whenever the interrupt ends, nothing is left to it. |
| UsbQueue.Queue.RunAll | firmware/common/usb_queue.c:46-227 | In every interleaving every step is taken, the invariant holds and the callbacks made are exactly those due for the fates met, once each, in schedule order. |
| UsbQueue.Queue.CompleteAll | firmware/common/usb_queue.c:191-227 | If the first k pending transfers are finished, an interrupt completes them in its first k rounds, whatever callbacks schedule and the device finishes in between: their fates follow with the bytes that remained, and exactly their calls are made. |
| UsbQueue.Queue.CompleteNext | firmware/common/usb_queue.c:197-225 | One of them: taken off, called back, then freed, and the next is looked at. |
| UsbQueue.Queue.Schedule | firmware/common/usb_queue.c:125-167 | Undisturbed, the seven steps of scheduling put the job last, on an active transfer of its length. |
| UsbQueue.Queue.WholeTransfer | firmware/common/usb_queue.c:125-227 | On an idle endpoint a job scheduled, finished by the device with some bytes remaining, is called back by the next interrupt with the bytes transferred. |
| PacketRing.FreeSlotMeansRoom | host/hackrf-tools/src/libhackrf_wrapper.c:13-24 | The next slot has length zero iff the ring is not full, although the count guard lets a full ring through. |
| PacketRing.NextSlotIsNobodys | host/hackrf-tools/src/libhackrf_wrapper.c:32-34 | Writing the next slot leaves every waiting packet alone. |
| PacketRing.OldestSlotIsAlone | host/hackrf-tools/src/libhackrf_wrapper.c:291-293 | Clearing the oldest slot leaves every younger packet alone, and the slot free. |
| PacketRing.Ring.Receive | host/hackrf-tools/src/libhackrf_wrapper.c:13-16 | A block is dropped at the guard iff more than 1024 packets wait. |
| PacketRing.Ring.WriterCheck | host/hackrf-tools/src/libhackrf_wrapper.c:18-30 | A block is dropped iff the ring is full or it is longer than 128 bytes. |
| PacketRing.Ring.WriterFill | host/hackrf-tools/src/libhackrf_wrapper.c:32-34 | Copy and length write only a slot that no packet waits in. |
| PacketRing.Ring.ReaderCheck | host/hackrf-tools/src/libhackrf_wrapper.c:266-282 | The reader goes on iff a packet waits; no waiting packet has length zero. |
| PacketRing.Ring.ReaderCopy | host/hackrf-tools/src/libhackrf_wrapper.c:289-290 | What leaves is the oldest packet not yet delivered. |
| PacketRing.Ring.ReaderClear | host/hackrf-tools/src/libhackrf_wrapper.c:291-292 | The slot of the packet read is free again, and no other is touched. |
| PacketRing.Ring.ReaderAdvance | host/hackrf-tools/src/libhackrf_wrapper.c:293 | The packet is delivered, with its length. |
| PacketRing.Ring.Step | host/hackrf-tools/src/libhackrf_wrapper.c:9-39 | Any statement of either side does what its place in the loop says: accepted packets are only appended to, at the writer's last statement, and delivered ones stay a prefix of them, growing at the reader's last. |
| PacketRing.Ring.Run | host/hackrf-tools/src/libhackrf_wrapper.c:255-298 | In every interleaving every step is taken, the packets delivered are the accepted ones in order, and at most 1025 wait. |
| PacketRing.Ring.Accept | host/hackrf-tools/src/libhackrf_wrapper.c:9-39 | A block of at most 128 bytes that meets a ring which is not full is accepted by its five statements, however the reader's come in between. |
| PacketRing.Ring.Take | host/hackrf-tools/src/libhackrf_wrapper.c:255-298 | A waiting packet is handed out by six statements of the reader, whatever the writer does meanwhile: it is the oldest, unchanged. |
| StreamRing.PartCopied | host/hackrf-tools/src/hackrf_transfer.c:389-394 | Copying into the free slots, around the end or not, touches no unread byte. |
| StreamRing.Ring.Check | host/hackrf-tools/src/hackrf_transfer.c:386-388 | A block is stored iff it fits with one byte to spare; otherwise it is dropped whole and counted. |
| StreamRing.Ring.Copy | host/hackrf-tools/src/hackrf_transfer.c:389-392 | The block, or its part up to the end of the buffer, in place. |
| StreamRing.Ring.Wrap | host/hackrf-tools/src/hackrf_transfer.c:393 | The rest of the block from the beginning of the buffer. |
| StreamRing.Ring.Store | host/hackrf-tools/src/hackrf_transfer.c:395 | The tail moves and the block is accepted whole. |
| StreamRing.Ring.Load | host/hackrf-tools/src/hackrf_transfer.c:1056-1060 | The length reaches to the end of the buffer or to the tail, never past what is stored. |
| StreamRing.Ring.Write | host/hackrf-tools/src/hackrf_transfer.c:1061-1065 | The file grows by the next bytes of the stream, also when the write is short. |
| StreamRing.Ring.Step | host/hackrf-tools/src/hackrf_transfer.c:384-398 | Any statement of either side does what its place says: a block is dropped and counted, or accepted whole at the last statement of the callback; the file grows by what was found to the end of the buffer or of the stream. |
| StreamRing.Ring.Run | host/hackrf-tools/src/hackrf_transfer.c:1043-1067 | In every interleaving every step is taken, the file is a prefix of the accepted blocks, and what it lacks is less than the buffer. |
| StreamRing.Ring.Accept | host/hackrf-tools/src/hackrf_transfer.c:384-398 | A block that meets room for it and one byte is accepted whole by the statements of the callback, however the loop's come in between. |
| StreamRing.Ring.DrainOnce | host/hackrf-tools/src/hackrf_transfer.c:1052-1067 | Once around the loop writes what is stored up to the end of the buffer, or all of it if it begins there. |
| StreamRing.Ring.Drain | host/hackrf-tools/src/hackrf_transfer.c:1043-1067 | Twice around the loop put everything that was stored into the file, whatever is accepted meanwhile. |
| Getopt.ShortBottom | host/hackrf-tools/getopt/getopt.c:340-356 | Swapping the shorter bottom segment with the far end of the top one leaves a smaller exchange. |
| Getopt.ShortTop | host/hackrf-tools/getopt/getopt.c:357-373 | The same for a shorter top segment. |
| Getopt.SwapBlocks | host/hackrf-tools/getopt/getopt.c:347-353 | Two blocks of equal length change places in the array. |
| Getopt.Rotate | host/hackrf-tools/getopt/getopt.c:338-374 | Two adjacent segments of any lengths change places, each in its order, everything else stays, and the loop ends. |
| Getopt.Scanner.Exchange | host/hackrf-tools/getopt/getopt.c:302-380 | The segments of skipped non-options and of options change places, and the records follow. |
| Getopt.Scanner.SkipNonOptions | host/hackrf-tools/getopt/getopt.c:598-600 | Further non-options join the skipped ones, in order. |
| Getopt.Scanner.EndOfOptions | host/hackrf-tools/getopt/getopt.c:608-619 | The element -- counts as an option and everything behind it as non-options. |
| Getopt.Scanner.BackOver | host/hackrf-tools/getopt/getopt.c:624-631 | At the end optind is the boundary between options and non-options. |
| Getopt.Scanner.Advance | host/hackrf-tools/getopt/getopt.c:574-649 | Either the scan is over and argv is permuted, or the next option element is entered; no event is lost. |
| Getopt.Scanner.TakeOption | host/hackrf-tools/getopt/getopt.c:805-998 | One option character: its result, argument and optopt, and where the scan goes on, all in the characters of the option string (Answers). |
| Getopt.FirstOptionAnswers | host/hackrf-tools/getopt/getopt.c:952-996 | The reading gives an option what the option string says, and nothing else: no colon, no argument; one colon, the rest of the text or else the next element; two, the rest of the text or none; a colon or an unknown character, '?' and that character. |
| Getopt.NextElement | host/hackrf-tools/getopt/getopt.c:952-996 | For every option string and option with a required argument, program -c next reads as c with next; with an optional one as c without, and next is read on its own. |
| Getopt.Scanner.ReadOption | host/hackrf-tools/getopt/getopt.c:805-998 | The event moves from what remains to what is read, with its elements. |
| Getopt.Scanner.Getopt | host/hackrf-tools/getopt/getopt.c:574-998 | Every call keeps the four segments and reports the next event of a plain left-to-right reading of the original argv, or ends; what it reports is what the option string says about the character reached, behind non-options only. |
| Getopt.Scan | host/hackrf-tools/getopt/getopt.c:574-998 | Until -1: the events of the plain reading in order; argv is program name, options with arguments, non-options, each in original order, and optind between them. |
| Getopt.FirstOptionMoves | host/hackrf-tools/getopt/getopt.c:805-998 | An option depends on the next element only, and only if it takes it as argument. |
| Getopt.ReadingMerges | host/hackrf-tools/getopt/getopt.c:574-998 | Options and non-options of a reading are all the elements, each in original order. |
| Getopt.PermutedReads | host/hackrf-tools/getopt/getopt.c:302-380 | Reading a list with skipped non-options moved behind the options gives the same events, unless an argument was missing. |
| Getopt.PermutingKeepsTheMeaning | host/hackrf-tools/getopt/getopt.c:302-380 | The permuted list reads as the given one iff no option lacks its argument while there are non-options. |
| Rffc5071.VcoOctave | firmware/common/rffc5071.c:224-233 | The VCO is between 2700 and 5400 MHz iff the LO is between 85 and 5400 MHz. |
| Rffc5071.ReportedLo | firmware/common/rffc5071.c:248-255 | The LO computed is at most 12 Hz below the one asked for and never above. |
| Rffc5071.Synth.LoDivider | firmware/common/rffc5071.c:224-230 | The divider is the largest that keeps the VCO at or below 5400 MHz, at most 32. |
| Rffc5071.Synth.ConfigSynthInt | firmware/common/rffc5071.c:215-267 | The value returned is the LO of the programmed fields in whole hertz, at most 12 Hz low; fields fit their registers. |
| Rffc5071.Synth.SetFrequency | firmware/common/rffc5071.c:270-278 | The value returned is that LO cut to 32 bits; the fields are set while the mixer is off, and it is on afterwards. |
| Max2837.SurplusIs | firmware/common/max2837.c:232-239 | What the cut weights lose is bounded by the odd steps. |
| Max2837.SplitStep | firmware/common/max2837.c:232-239 | A step keeps the balance of remainder, fraction and cuts, whichever way the comparison goes. |
| Max2837.Fraction | firmware/common/max2837.c:228-239 | The twenty bits are below 2^20 and worth at most 35 Hz less and less than 7 Hz more than the remainder. |
| Max2837.Mixer.SetFrequency | firmware/common/max2837.c:199-255 | Every 32-bit frequency is tuned at most 35 Hz below and less than 7 Hz above the request, in its band. |
| Tuning.Graduated | firmware/common/tuning.c:68-96 | In range the planned IF is graduated as documented, with no wrap. |
| Tuning.PlannedLo | firmware/common/tuning.c:68-98 | The plan asks for an LO of 600 to 4512 MHz, the planned IF away from the request. |
| Tuning.DifferenceSurvives | firmware/common/tuning.c:74-101 | The distance between LO and request is exact although the LO is cut to 32 bits. |
| Tuning.NearPlan | firmware/common/tuning.c:72-101 | The IF is within 2 MHz and the LO's rounding of the planned one. |
| Tuning.AcceptedTooHigh | firmware/common/tuning.c:60-112 | Frequencies above 7250 MHz are taken for good ones iff their megahertz overflow 32 bits into the range. |
| Tuning.FarTooHighAccepted | firmware/hackrf_usb/usb_api_transceiver.c:89-98 | A request for 4294967295 MHz and 1000000 Hz is tuned in the low-pass band. |
| Tuning.ReceivedBelow | firmware/common/tuning.c:68-77 | The LO as the exact ratio of its fields, less the IF tuned: less than 7 Hz below the request and 36 above. |
| Tuning.ReceivedAbove | firmware/common/tuning.c:85-102 | The same with the IF added: at most 35 Hz below the request and less than 8 above. |
| Tuning.LowestExplicitLo | firmware/common/tuning.c:115-143 | An LO of 84.375 MHz is accepted and cut to 84, and the VCO runs at 2688 MHz, below its octave. |
| Tuning.Tuner.TuneLowPass | firmware/common/tuning.c:68-77 | Low-pass band: the mixer is asked for exactly LO minus request. |
| Tuning.Tuner.TuneHighPass | firmware/common/tuning.c:85-102 | High-pass band: the mixer is asked for exactly request minus LO. |
| Tuning.Tuner.SetFreq | firmware/common/tuning.c:54-113 | Success iff the megahertz, cut to 32 bits, are at most 7250. If the cut did not change them, the frequency received, as the exact ratio of the fields of both synthesizers, is 7 Hz below to 36 above the request in the low-pass band, 35 below to 7 above without the LO, and 35 below to 8 above in the high-pass band. The IF synthesizer is tuned in standby and is back in its mode afterwards. |
| Tuning.Tuner.SetFreqExplicit | firmware/common/tuning.c:115-143 | Taken iff IF, LO and path are in range; below 85 MHz an accepted LO leaves the VCO out of its octave. |
| Gcds.GcdIsGreatest | firmware/common/hackrf_core.c:339-372 | The reference gcd divides both numbers and every common divisor divides it. |
| Gcds.GcdScales | firmware/common/hackrf_core.c:347-350 | Common factors come out of the gcd. |
| Gcds.Odd | firmware/common/hackrf_core.c:352-357 | Taking out the factors two keeps the gcd with an odd partner. |
| Gcds.OddGcd | firmware/common/hackrf_core.c:355-369 | The subtracting loop gives the gcd of an odd number and any other. |
| Gcds.BinaryGcd | firmware/common/hackrf_core.c:339-372 | The binary algorithm is the gcd for all numbers, zero included. |
| ClockRate.RemainderSurvives | firmware/common/hackrf_core.c:381-383 | The remainder is exact although product and quotient wrap at 32 bits. |
| ClockRate.ReducedIsLeast | firmware/common/hackrf_core.c:395-398 | No fraction of the same value has a smaller denominator than the reduced one. |
| ClockRate.Cut | firmware/common/hackrf_core.c:400-402 | Cutting at 2^20-1 loses more than nothing and less than one part. |
| ClockRate.Fraction | firmware/common/hackrf_core.c:390-408 | b/c is the remainder's fraction exactly iff the reduced denominator is below 2^20, else less than 1/(2^20-1) too small; it is in lowest terms. |
| ClockRate.Choose | firmware/common/hackrf_core.c:380-408 | a is the quotient cut to 32 bits and b/c the best fraction of the remainder. |
| ClockRate.DividerKept | firmware/common/hackrf_core.c:416-419 | What the registers keep satisfies (P1+512) P3 + P2 = 128 (a c + b) iff a is between 4 and 2051. |
| ClockRate.ProgramDivider | firmware/common/hackrf_core.c:410-428 | The registers stand for the divider iff it is in range; integer mode iff it is an even integer. |
| ClockRate.SampleRateFracSet | firmware/common/hackrf_core.c:373-431 | The divider programmed is the quotient of the rates and the best fraction iff the quotient is between 4 and 2051. |
| Si5351c.UnpackPack | host/hackrf-tools/src/hackrf_debug.c:159-178 | What the host tool reads is what the firmware wrote, cut to the widths of the fields. |
| Si5351c.PackLaysOut | firmware/common/si5351c.c:136-165 | Which register holds which bits of P1, P2, P3 and the R divider, stated apart from the reading. |
| Si5351c.LaidOutOnce | firmware/common/si5351c.c:136-165 | No other eight bytes are laid out so. |
| Si5351c.Generator.ConfigureMultisynth | firmware/common/si5351c.c:136-165 | The registers of one multisynth are laid out as the chip's register map says and hold the values cut to their widths; all other registers stay. |
| Si5351c.Generator.ReadMultisynth | host/hackrf-tools/src/hackrf_debug.c:159-178 | The tool decodes exactly what the registers hold. |
| Si5351c.Generator.SetIntMode | firmware/common/si5351c.c:254-269 | Bit 6 of the control register follows the argument, all other bits stay. |
| BleCrc.TableIsShift8 | host/libhackrf/btle/common.h:5-38 | Every entry of the table is its index after eight steps of the bit-serial register. |
| BleCrc.LowByte | host/libhackrf/btle/common.h:44-55 | Eight steps are one look-up of the low byte, for every register. |
| BleCrc.CrcUpdate | host/libhackrf/btle/common.h:44-63 | The table-driven update is the bit-serial register with polynomial 0xDA6000, for every data and initial value. |
| BleCrc.CrcConcat | host/libhackrf/btle/common.h:44-63 | The checksum of a concatenation goes on where the first part's stopped. |
| BleCrc.LfsrIsRun | host/libhackrf/btle/common.h:44-55 | Up to 25 input bits can as well be put into the register at once. |
| BleCrc.LfsrInjective | host/libhackrf/btle/common.h:44-55 | Different registers stay different under the same input. |
| BleCrc.CrcCheck | host/libhackrf/btle/common.h:108-117 | The result is 1 iff the three bytes behind the data are the checksum, lowest first. |
| BleCrc.PassesIffResidueZero | host/libhackrf/btle/common.h:108-117 | A word passes iff the checksum over all of it is zero. |
| BleCrc.BurstSeen | host/libhackrf/btle/common.h:44-63 | Different inputs of at most 24 bits leave different registers. |
| BleCrc.BurstChangesCrc | host/libhackrf/btle/common.h:44-63 | Data that differ by a burst of at most 24 bits have different checksums. |
| BleCrc.BurstDetected | host/libhackrf/btle/common.h:108-117 | No burst of at most 24 bits, in data, checksum or across both, passes the check. |
| SweepPlan.Plan | host/hackrf-tools/src/hackrf_sweep.c:576-582 | Each range is extended to the least whole number of 20 MHz steps that covers it. |
| SweepPlan.BandsTile | host/hackrf-tools/src/hackrf_sweep.c:248-289 | Every frequency of a planned range is printed for exactly one tuning, every other for none. |
| SweepPlan.OutputTiles | host/hackrf-tools/src/hackrf_sweep.c:233-236 | The output, which drops tunings above 7250 MHz, covers a planned range iff the range ends by 7265 MHz. |
| SweepPlan.TunerFollows | firmware/hackrf_usb/usb_api_sweep.c:156 | set_freq accepts every tuning of a planned range iff the range ends by 7258 MHz. |
| SweepPlan.HighestRange | host/hackrf-tools/src/hackrf_sweep.c:370-385 | The range 7249:7250, planned up to 7269 MHz: the receiver refuses both its tunings and the output drops one. |
| SweepRequest.Word32Survives | host/libhackrf/src/hackrf.c:1868-1875 | Four bytes and two halves of a 32-bit number make it again. |
| SweepRequest.Pack | host/libhackrf/src/hackrf.c:1848-1880 | Packed iff the parameters are valid; the bytes are the parameters', lowest first. |
| SweepMode.WireDecodes | firmware/hackrf_usb/usb_api_sweep.c:65-78 | The data decodes to the parameters it was packed from. |
| SweepMode.Sweeper.Setup | firmware/hackrf_usb/usb_api_sweep.c:52-63 | The counts are taken, or the request stalls, for every length. |
| SweepMode.Sweeper.Data | firmware/hackrf_usb/usb_api_sweep.c:64-82 | Step width, offset, style and list are decoded, or the request stalls. |
| SweepMode.InitSweep | firmware/hackrf_usb/usb_api_sweep.c:47-85 | The host's parameters reach the firmware unchanged iff they are valid, and else nothing changes. |
| SweepMode.PlaceInRound | firmware/hackrf_usb/usb_api_sweep.c:135-157 | Where a range's tunings are in the round of all ranges. |
| SweepMode.NextRange | firmware/hackrf_usb/usb_api_sweep.c:137-151 | After the last tuning of a range comes the first of the next, cyclically. |
| SweepMode.NextTuning | firmware/hackrf_usb/usb_api_sweep.c:140-154 | Within a range the next tuning is the next of the round. |
| SweepMode.Sweeper.NextFrequency | firmware/hackrf_usb/usb_api_sweep.c:136-155 | Each step goes to the next place of the round, in either style. |
| SweepMode.Sweeper.Retune | firmware/hackrf_usb/usb_api_sweep.c:135-158 | The next tuning is the next of the round, set_freq is asked for it plus the offset, and it begins with no blocks. |
| SweepMode.Sweeper.Pass | firmware/hackrf_usb/usb_api_sweep.c:96-159 | One pass of the loop keeps the tunings a repetition of the round and the blocks those that the passes so far leave. |
| SweepMode.Sweeper.Run | firmware/hackrf_usb/usb_api_sweep.c:87-160 | Over whole runs the tunings repeat the round, set_freq is asked for each plus the offset, and a finished tuning has its dwell count of blocks iff no pass crossed over in it with 2 to dwell count blocks queued; it never has more. |
| SweepMode.Sweeper.QueueBlocks | firmware/hackrf_usb/usb_api_sweep.c:97-133 | A pass queues up to two blocks and sends at most one, none of the first two of a tuning. |
| SweepDwell.DweltOn | firmware/hackrf_usb/usb_api_sweep.c:97-158 | Any pass keeps the count: the blocks of every tuning, with the losses of its own passes, are what the blocks queued call for. |
| SweepDwell.FullDwell | firmware/hackrf_usb/usb_api_sweep.c:97-158 | A finished tuning has all its blocks iff none of its passes crossed with 2 to dwell count blocks queued. |
| SweepDwell.LosingRun | firmware/hackrf_usb/usb_api_sweep.c:97-158 | A run that loses: three passes with a dwell count of two, the third of which crosses. |
| SweepMode.PlanIsSendable | host/hackrf-tools/src/hackrf_sweep.c:360-387 | The ranges that the tool accepts, planned, make a request that is sent. |
| SweepMode.Sweep | firmware/hackrf_usb/usb_api_sweep.c:47-160 | A request whose ranges are planned is swept: its tunings plus the offset, round by round, with the samples asked for unless a pass loses some. |
| SweepMode.SweepRanges | host/hackrf-tools/src/hackrf_sweep.c:574-590 | From the ranges named by the user to the tunings of the firmware: planned, requested and swept round by round, and a finished tuning has the samples asked for iff no pass of it loses a block. |
| ChannelMap.OneChannel | firmware/hackrf_usb/bluehack.c:262-281 | An active channel stands for itself and takes over the first unused one that waits. |
| ChannelMap.Leftovers | firmware/hackrf_usb/bluehack.c:285-288 | Unused channels that nobody took over stand for the used channel of their number modulo the count. |
| ChannelMap.GetChannels | firmware/hackrf_usb/bluehack.c:248-289 | The whole sequence for every map with an active data channel. |
| ChannelMap.EntriesActive | firmware/hackrf_usb/bluehack.c:248-289 | Every entry is an active channel, and active channels stand for themselves. |
| Follow.Inverse | firmware/hackrf_usb/bluehack.c:338-339 | Every increment but zero has an inverse modulo 37. |
| Follow.Reached | firmware/hackrf_usb/bluehack.c:338-339 | With a nonzero increment every index is reached within 37 hops. |
| Follow.VisitsAll | firmware/hackrf_usb/bluehack.c:338-339 | 37 hops visit all indices iff the increment is not zero. |
| Follow.Follower.UpdateBtleState | firmware/hackrf_usb/bluehack.c:291-408 | A CONNECT_REQ starts following iff it is accepted; then the first packet announces a hop, a late one hops, and otherwise the connection stays as it is; before, the channel stays and at most the next advertising channel is announced. |
| Follow.Follower.Synchronise | firmware/hackrf_usb/bluehack.c:303-322 | The next advertising channel is announced in the cycle 37, 38, 39. |
| Follow.Follower.Connect | firmware/hackrf_usb/bluehack.c:338-378 | The connection starts at index increment on its own channel, with the sequence for its map. |
| Follow.Follower.Event | firmware/hackrf_usb/bluehack.c:380-406 | The first packet of a connection event announces the hop to the channel of the next index; a late one hops there and announces the one after; any other changes only the count. |
| Follow.Follower.PendingHop | firmware/hackrf_usb/hackrf_usb.c:226-239 | An announced hop is made when it is due: to the channel announced, which on a connection is that of the next index; the count begins anew and no hop is pending. Otherwise nothing changes. |
| Follow.Follower.Run | firmware/hackrf_usb/bluehack.c:291-408 | Over any run through either hop site every packet and pass is taken, after n hops the index is ((n+1) increment) mod 37 and the channel and frequency the sequence's entry there. |
| Follow.Follower.ConnectionEvent | firmware/hackrf_usb/bluehack.c:380-406 | A first packet, further ones that are not late and passes before the time, then a due pass of the main loop: exactly one hop, to the channel of the next index. |
| Follow.Follower.FollowConnection | firmware/hackrf_usb/bluehack.c:291-408 | From an accepted CONNECT_REQ on, after n such connection events the receiver is on the channel of index ((n+1) increment) mod 37. |
| Follow.MapIsNumber | firmware/hackrf_usb/bluehack.c:248-260 | The map of a CONNECT_REQ is the number of its five bytes, lowest first, bit by bit. |
| Follow.ChannelsFillTheBand | firmware/hackrf_usb/bluehack.c:227-246 | The forty channels fill the band from 2402 MHz on, 2 MHz apart, each its own; the data channels in order around the three advertising channels. |
| SpiFlash.Wrapped | firmware/common/w25q80bv.c:145-159 | Where the chip puts each byte of a page program, wrapping in the page. |
| SpiFlash.Chip.PageProgramCommand | firmware/common/w25q80bv.c:145-159 | The chip clears bits in the page, wrapping in it. |
| SpiFlash.PageProgram | firmware/common/w25q80bv.c:134-160 | Done iff the bytes stay inside one page and the flash, and then exactly there. |
| SpiFlash.ProgramPieces | firmware/common/w25q80bv.c:179-201 | The pieces up to the boundary, of whole pages and of the rest make up the block, none skipped. |
| SpiFlash.Program | firmware/common/w25q80bv.c:163-202 | A block of any length at any address is programmed, or nothing is if it does not fit. |
| SpiFlash.Read | firmware/common/w25q80bv.c:205-228 | The bytes at the address, or an untouched buffer. |
| SpiFlash.Device.WriteRequest | firmware/hackrf_usb/usb_api_spiflash.c:49-83 | Stalls iff the piece is longer than a page or does not fit, and else programs it. |
| SpiFlash.Device.ReadRequest | firmware/hackrf_usb/usb_api_spiflash.c:85-122 | Stalls in the same cases, and else sends the bytes. |
| SpiFlash.HostWrite | host/libhackrf/src/hackrf.c:909-937 | The address survives its two halves; refused iff it does not fit. |
| SpiFlash.HostRead | host/libhackrf/src/hackrf.c:939-967 | The same for reading. |
| SpiFlash.WriteFile | host/hackrf-tools/src/hackrf_spiflash.c:281-305 | After erasing and writing, the flash holds the file and is erased elsewhere, iff the file fits. |
| SpiFlash.ReadFile | host/hackrf-tools/src/hackrf_spiflash.c:243-261 | The pieces read make up the range asked for. |
| SpiFlash.RoundTrip | host/hackrf-tools/src/hackrf_spiflash.c:243-305 | What was written is read back. |

## Left out

- Player.Player.DoXsdrsize: lengths whose byte count does not fit a 16-bit short stop the model (LengthWraps) instead of running on with a negative length; the bit length itself is stored as decoded.
- Player.Player.DoXsdrinc: a data mask of 256 bytes stops the model (NoProgress), where the 8-bit index of the original loops for ever. The values sent are stated if the data mask has the register's length, as the format demands; otherwise only the bytes consumed. Whether it returns early, with an error, depends on the device.
- Player.Player.DoXwait: an end state byte above 0x0F stops the model after the wait, where the original clocks on for ever.
- Player.Player.GotoStateByte: a byte above 0x0F stops the model (NoProgress) before the endless walk; the edges of that walk are not in the trace.
- LenVals.LenVal.constructor: uninitialised buffers are arbitrary contents with a length of at most 257.
- Masking.DoSdrMasking: requires that the next data hold as many bits as the mask, as its callers provide; the original would read beyond the buffer.
- PacketRing.Ring.Receive: blocks are not empty. Demodulated packets never are; an empty block could be overtaken in a full ring, because zero length marks a free slot.
- PacketRing.Ring.ReaderCheck: the mutex that wakes the reader, the exit flag and the streaming warning are not part of the model.
- StreamRing.Ring.Check: buffer sizes above 2^32, whose positions the 32-bit head and tail could not hold, are not modelled; nor are the sample limit and the sign flip for .wav files, which happen before the ring, and the report that sets the count of dropped blocks back to zero.
- UsbQueue.Queue.DeviceComplete: device errors, the hardware's descriptor chaining and priming are not modelled; a transfer that is done stays done.
- UsbQueue.Queue.Step: that the interrupt ends at all is not stated, and need not be so: callbacks may schedule transfers that the device finishes at once.
- UsbQueue.Queue.Flush: the flush of an endpoint and its hardware registers are reduced to the queue.
- Getopt.Scanner.Getopt: long options, -W, the modes REQUIRE_ORDER and RETURN_IN_ORDER (hence POSIXLY_CORRECT), error messages and callers that move optind are not modelled; option strings that select them are excluded by Permutes.
- Rffc5071.Synth.SetFrequency: registers are fields; the register cache, its dirty bits and the bus are not modelled. A request of 0 MHz divides by zero in the original.
- Tuning.Tuner.SetFreq: requests for which the planned LO is 0 modulo 2^16 are excluded, because the original divides by it; none exists below 2^32 MHz (Tuning.PlannedLo).
- ClockRate.SampleRateFracSet: a rate of 0 divides by zero in the original.
- SweepMode.Sweeper.NextFrequency: step width and ranges are those of the host tool (20 MHz, planned); other clients' parameters are decoded, but not followed through the stepping.
- SweepMode.Sweeper.QueueBlocks: the ten header bytes of a block carry the frequency of the moment; writing and reading them byte by byte is not modelled.
- SpiFlash.Chip.ChipErase: status polling and device identification are not modelled.
- ChannelMap.GetChannels: a map without active data channels divides by zero in the original; Connect only passes maps that have some.
- Follow.Follower.Event: sample positions and times are reduced to whether a packet is late and whether a hop is due; USB requests that change the state are not modelled.
- Weak memory: steps are sequentially consistent, and an interrupt makes a pending exclusive store fail.
- crc_init_reorder, a fixed permutation of 24 bits used for constants.
- De-whitening, GFSK demodulation, signal strength, RF switch tables, operacake, CPLD update, and the floating-point rate setting of the host.
- GPIO, SSP, I2C, SGPIO and USB controller registers, delays, LEDs, libusb and console I/O.
