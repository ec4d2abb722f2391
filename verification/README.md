# Verified models of Hubris flash, power and kernel-table logic

Hubris drives boards whose correctness rests on a few stateful components: records kept
in NOR flash through power loss, a redundant image in auxiliary flash, the host power
sequence, an EEPROM writer, the kernel's build-time tables, an FPGA server's locks and an
alert decoder. This project models each one in Dafny and proves what it promises over whole
runs. `dafny verify dfyconfig.toml` checks everything.

## Contents

| file | models |
|---|---|
| `Nor.dfy` | NOR flash: programming clears bits and wraps in its page, erasing sets them, a cut operation leaves old or new bits |
| `LittleEndian.dfy` | numbers as bytes |
| `RecordLog.dfy`, `DurableRegister.dfy` | the two-chip persistent record log and its runs with power cuts |
| `LogShape.dfy` | the shape of that log, and when torn erases break it |
| `HfRecord.dfy`, `HfBytes.dfy` | the 32-byte record, and the log on real bytes |
| `HfServer.dfy` | the host flash server: pins, scan, boot repair, writes, client calls |
| `Tlvc.dfy`, `AuxImage.dfy` | chunk walking, image checksum, blob lookup |
| `NorChip.dfy`, `AuxFlash.dfy` | the auxiliary flash chip loops and slot server |
| `AuxSpare.dfy` | what the redundancy copy leaves in the spare, and when that passes |
| `BitstreamLoad.dfy`, `ActiveLoad.dfy` | streaming a blob into an FPGA behind a running hash, from any flash and from the server's active slot |
| `Sequencer.dfy` | the power state machine, its hardware and its runs |
| `SequencerServer.dfy` | the sequencer server against status registers, pins and an I2C bus |
| `Eeprom.dfy` | the paged EEPROM writer |
| `KernelTables.dfy` | region table, task regions, interrupt maps |
| `FpgaServer.dfy` | closed-receive locking and the user-design port |
| `SbRmi.dfy` | alert-bit decoding |

## How power loss is modelled

Every host-flash operation is a list of erase and program commands computed from what the
scans found. A power cut stops the list between two commands or inside one. A torn command
leaves each bit at its old or its new value. One assumption is made about the CRC, in
`HfBytes.TornBytes` and `HfServer.TornCommand`: a torn slot that still reads as a valid record is the old record or the
new one. The CRC itself, the SHA3-256 hash and the TLV-C header parser are parameters, so the
results hold for any of them. `HfServer` keeps a ghost trace of the commands that go out to
the chips and shows that they are exactly these lists, so that power failing at any moment of
a call is a cut of its list (`HfServer.CutWrite`, `HfServer.CutRepair`). Power loss is the
only fault in a run. A chip that refuses write enable is modelled in the server's contracts,
and `DurableRegister.WriteCrashSafeIff` says exactly when a write is crash safe even from a
state that such a refusal left behind.

The auxiliary flash server instead keeps a ghost journal of every content its chip has had,
so that its contracts speak of a cut at any moment.

## Findings

- The comment on `RawPersistentData` calls it a 40-byte struct; its fields occupy 32 bytes. The model follows the fields.
- A board with one host-flash chip is crash safe exactly when the write need not erase a sector that holds the current record (`DurableRegister.SingleChipCrashSafeIff`).
- A torn erase can break the used-prefix shape of the record log, though never its durability (`LogShape.TornEraseBreaksShape`). A write is safe from this exactly when neither chip is full (`LogShape.WriteShapeSafeIff`), a boot repair exactly when the chip it writes to is not (`LogShape.RepairShapeSafeIff`).
- The redundancy copy can fail its own check: the copy erases only the sectors it writes, and the spare's old bytes past them follow the image. It passes exactly when they add no further CHCK or AUXI chunk (`AuxSpare.CopyPassesIff`). An image that ends with a sector fails over any spare that goes on with an old CHCK or AUXI chunk, and fails every time it is tried again (`AuxSpare.StaleSpareNeverPasses`), until the spare is erased (`AuxSpare.CopyPassesInRoom`, where blank cells must not parse as a header).
- A failed way down from A0 leaves the state in the A0 family with the enables already cleared and the UART off (`Sequencer.FailedDownRun`), and nothing else does (`Sequencer.EnablesInA0`).
- A2 can be entered with the core rails on, because a failed power-up ignores a failure to switch them off again (`Sequencer.RailsOnInA2Run`); `Sequencer.A2RailsOffIff` says exactly when they are off, and `Sequencer.QuietA2HasRailsOff` when a caller can tell.
- The comments on `write_buffer` and `read_into` ask for an end address below the EEPROM size; the code accepts an end equal to it, and so does the model.

## Model

| member | source | states |
|---|---|---|
| `Nor.ProgramInPage` | drv/stm32h7-qspi/src/lib.rs:119-131 | a program that stays in its page touches exactly the addressed cells |
| `Nor.ProgramBlank` | drv/stm32h7-qspi/src/lib.rs:119-131 | programming erased cells deposits the data itself |
| `Nor.ProgramOnlyClears` | drv/stm32h7-qspi/src/lib.rs:119-131 | programming never turns a 0 bit into a 1 |
| `RecordLog.FirstErased` | drv/gimlet-hf-server/src/main.rs:370-391 | the scan's empty slot is the first blank one, or there is none |
| `RecordLog.NewestIsMaximum` | drv/gimlet-hf-server/src/main.rs:370-391 | the scan's best record is a valid record with the highest counter on its chip, and is missing only when no slot is valid |
| `RecordLog.BestIsMaximum` | drv/gimlet-hf-server/src/main.rs:324-363 | the current record has the highest counter over all slots of both chips |
| `RecordLog.CutAppend` | drv/gimlet-hf-server/src/main.rs:420-438 | an interrupted append leaves the other chip alone and holds only old records and perhaps the new one |
| `RecordLog.DoneAppend` | drv/gimlet-hf-server/src/main.rs:420-438 | a finished append also holds the new record |
| `RecordLog.WritePlanMeans` | drv/gimlet-hf-server/src/main.rs:742-774 | a write is skipped exactly when the same record with the requested value leads both chips, refused exactly when it is needed and a held record has the last counter, and else stores the value under one above the highest counter held |
| `RecordLog.SinglePlanMeans` | drv/gimlet-hf-server/src/main.rs:775-795 | the same on a board with one chip |
| `DurableRegister.RepairShape` | drv/gimlet-hf-server/src/main.rs:441-493 | repair finds both chips in step or copies the newest record to the chip without it |
| `DurableRegister.RepairCut` | drv/gimlet-hf-server/src/main.rs:441-493 | however repair is cut, the current record survives |
| `DurableRegister.RepairDone` | drv/gimlet-hf-server/src/main.rs:441-493 | finished repair leaves both chips with the same newest record |
| `DurableRegister.WriteCut` | drv/gimlet-hf-server/src/main.rs:722-774 | however a write is cut, the log shows the old record or the new one |
| `DurableRegister.WriteDone` | drv/gimlet-hf-server/src/main.rs:722-774 | a finished write leads both chips with the requested value |
| `DurableRegister.StepRefines` | drv/gimlet-hf-server/src/main.rs:164-182 | each boot, read, write or power cut keeps the invariant and moves the shown value only by a write, and a boot selects the device it reads |
| `DurableRegister.CountersUniqueInEveryRun` | drv/gimlet-hf-server/src/main.rs:459-478 | in every reachable state records with equal counters are identical |
| `DurableRegister.DurablyLinearizable` | drv/gimlet-hf-server/src/main.rs:193-205 | every run with power cuts is explained by one atomic register in which acknowledged writes took effect |
| `DurableRegister.ReadsAckedOrCutShort` | drv/gimlet-hf-server/src/main.rs:193-205 | a read returns the last acknowledged value or that of a write cut short since |
| `DurableRegister.CutShortNeverSurfacesLater` | drv/gimlet-hf-server/src/main.rs:193-205 | between writes every read and boot returns the same value, so a rejected record never comes back |
| `LogShape.ShapeMeaning` | drv/gimlet-hf-server/src/main.rs:370-391 | in a shaped log the first blank slot splits used from blank and the newest record is the last valid one |
| `LogShape.RunKeepsShape` | drv/gimlet-hf-server/src/main.rs:420-493 | with atomic erases every reachable state keeps both logs shaped with rising counters |
| `LogShape.WriteShapeSafeIff` | drv/gimlet-hf-server/src/main.rs:722-774 | a write keeps both logs shaped through every cut, torn erases included, exactly when neither chip is full |
| `LogShape.RepairShapeSafeIff` | drv/gimlet-hf-server/src/main.rs:441-493 | boot repair does so exactly when the chip it has to write to, if any, is not full |
| `LogShape.TornEraseBreaksShape` | drv/gimlet-hf-server/src/main.rs:398-438 | a run on full chips in which the erase that a write starts with is torn and the shape is lost |
| `DurableRegister.WriteCrashSafeIff` | drv/gimlet-hf-server/src/main.rs:722-774 | from any state, a write survives every cut exactly when the current record is also on the active chip or the inactive chip has a free slot |
| `DurableRegister.InStepIsCovered` | drv/gimlet-hf-server/src/main.rs:441-493 | chips in step meet that condition |
| `DurableRegister.SingleChipCrashSafeIff` | drv/gimlet-hf-server/src/main.rs:775-795 | with one chip a write survives every cut exactly when it need not erase the current record |
| `HfRecord.DecodeEncode` | drv/gimlet-hf-server/src/main.rs:205-226 | the record layout decodes to what was encoded |
| `HfRecord.EncodeDecode` | drv/gimlet-hf-server/src/main.rs:205-226 | every 32 bytes are the encoding of what they decode to |
| `HfRecord.New` | drv/gimlet-hf-server/src/main.rs:229-241 | a new record passes its own validity assertion |
| `HfRecord.RecordRoundTrip` | drv/gimlet-hf-server/src/main.rs:229-260 | a stored record scans as itself |
| `HfRecord.BlankIsErased` | drv/gimlet-hf-server/src/main.rs:254-260 | a blank slot is never valid |
| `HfRecord.LiveBytes` | drv/gimlet-hf-server/src/main.rs:751-755 | a valid slot's bytes are determined by counter and device |
| `HfRecord.CrcCodecIsLawful` | drv/gimlet-hf-server/src/main.rs:243-260 | for any CRC, writing and scanning fit together |
| `HfRecord.ScanReads` | drv/gimlet-hf-server/src/main.rs:253-260 | byte by byte, a slot is a record exactly with the fixed fields, a device of 0 or 1 and a checksum over the 28 bytes before it, and which record it then is |
| `HfRecord.RecordLayout` | drv/gimlet-hf-server/src/main.rs:228-251 | the bytes stored for a record, low byte first |
| `HfBytes.ProgramRefines` | drv/gimlet-hf-server/src/main.rs:420-438 | programming a record changes its 128-byte slot and no other |
| `HfBytes.TornRefines` | drv/gimlet-hf-server/src/main.rs:301-306 | a bit-level torn command is a torn command of the abstract log |
| `HfBytes.CutRefines` | drv/gimlet-hf-server/src/main.rs:420-438 | every byte-level power cut is an abstract power cut |
| `HfBytes.WriteFits` | drv/gimlet-hf-server/src/main.rs:722-774 | a write only programs slots that are blank at that moment |
| `HfBytes.RepairFits` | drv/gimlet-hf-server/src/main.rs:441-493 | repair only programs slots that are blank at that moment |
| `HfBytes.NextRefines` | drv/gimlet-hf-server/src/main.rs:164-182 | each byte-level step is an abstract step |
| `HfBytes.BytesAreDurable` | drv/gimlet-hf-server/src/main.rs:193-205 | every run of the chips' bytes, with client commands outside the record sector between the writes, is explained by an atomic register |
| `HfServer.HostFlash.SetDev` | drv/gimlet-hf-server/src/main.rs:308-322 | pin and state change together, only with a pin and the SP on the mux |
| `HfServer.HostFlash.SetMux` | drv/gimlet-hf-server/src/main.rs:622-636 | the mux pin always agrees with the state |
| `HfServer.HostFlash.Scan` | drv/gimlet-hf-server/src/main.rs:370-391 | the loop finds the newest record and first blank slot of the wired chip |
| `HfServer.HostFlash.GetRawPersistentData` | drv/gimlet-hf-server/src/main.rs:324-363 | returns the record with the highest counter and restores the selection |
| `HfServer.HostFlash.SectorErase` | drv/gimlet-hf-server/src/main.rs:398-413 | refuses a protected sector 0, a mux at the host and a refused write enable, in that order and nothing else, and never changes sector 0 within capacity when protected |
| `HfServer.HostFlash.WriteRawToAddr` | drv/gimlet-hf-server/src/main.rs:420-438 | issues the commands of a prefix of the append, in order and no others, all of it exactly on success |
| `HfServer.HostFlash.EnsureRedundant` | drv/gimlet-hf-server/src/main.rs:441-493 | issues the commands of a prefix of the repair list, in order and no others, and restores the selection on every path |
| `HfServer.HostFlash.WritePersistentData` | drv/gimlet-hf-server/src/main.rs:722-797 | does nothing, refuses, or stores the value under the next counter on every chip, exactly when it should; fails otherwise only when a write enable is refused; issues exactly the commands of a prefix of its list, with the selection restored |
| `HfServer.AcknowledgedWrite` | drv/gimlet-hf-server/src/main.rs:722-774 | a successful write is one step of the durable register and leads both chips with the requested value |
| `HfServer.CutWrite` | drv/gimlet-hf-server/src/main.rs:722-774 | power failing at any moment among the commands of a write is one cut-short write of the durable register |
| `HfServer.CutRepair` | drv/gimlet-hf-server/src/main.rs:441-493 | power failing at any moment among the commands of the repair is one cut boot |
| `HfServer.ClientStep` | drv/gimlet-hf-server/src/main.rs:527-589 | a client command past the record sector, finished or torn, is a step that leaves the register alone |
| `HfServer.HostFlash.Start` | drv/gimlet-hf-server/src/main.rs:152-182 | comes up exactly when no write enable is refused; the start is then one boot step and selects the chip that the record with the highest counter names |
| `HfServer.HostFlash.PageProgram` | drv/gimlet-hf-server/src/main.rs:569-589 | a protected program within capacity never changes sector 0 |
| `HfServer.HostFlash.BulkErase` | drv/gimlet-hf-server/src/main.rs:554-567 | refused unless sector 0 may change, and off the mux |
| `HfServer.HostFlash.Read` | drv/gimlet-hf-server/src/main.rs:591-604 | returns the selected chip's bytes, only when muxed to the SP |
| `HfServer.HostFlash.Serve` | drv/gimlet-hf-server/src/main.rs:184-186 | over every run of requests pins agree with state and guarded clients never change sector 0 |
| `Tlvc.WalkSplits` | drv/auxflash-server/src/main.rs:180-191 | a reader of bytes that agree up to where another stopped yields the same chunks and then goes on from there |
| `AuxImage.ReadChecksum` | drv/auxflash-api/src/lib.rs:92-146 | the loops compute the verdict on the image's chunks |
| `AuxImage.ImageVerdict` | drv/auxflash-api/src/lib.rs:92-146 | the first chunk that is one too many or of the wrong size decides the error, else what is missing, else whether the hashes differ |
| `AuxImage.AcceptedIff` | drv/auxflash-api/src/lib.rs:92-146 | an image is accepted exactly with one 32-byte CHCK and one AUXI chunk whose stored and computed hashes agree |
| `AuxImage.CopyAcceptedIff` | drv/auxflash-server/src/main.rs:218-225 | a copy of an accepted image is accepted exactly when what follows it holds no further CHCK or AUXI chunk |
| `AuxImage.HashBody` | drv/auxflash-api/src/lib.rs:115-127 | hashing in 256-byte pieces hashes the body |
| `AuxImage.FindTagIsFirst` | drv/auxflash-api/src/lib.rs:155-174 | the chunk found is the first with its tag |
| `AuxImage.GetBlobByTag` | drv/auxflash-api/src/lib.rs:148-179 | returns exactly the body range of the first inner chunk with the tag in the first AUXI chunk, and the right error when there is no such chunk |
| `NorChip.Chip.CopyPage` | drv/auxflash-server/src/main.rs:197-217 | one turn copies a page into erased cells and changes nothing before it or past its sector, at any moment |
| `NorChip.Chip.CopyRange` | drv/auxflash-server/src/main.rs:192-217 | the loop copies the range exactly when no write enable is refused, and is confined to the target slot throughout |
| `NorChip.Chip.EraseRange` | drv/auxflash-server/src/main.rs:282-288 | every sector of the range is erased, exactly when no write enable is refused, and nothing else |
| `NorChip.Chip.WriteRange` | drv/auxflash-server/src/main.rs:336-350 | the pages stored are a prefix of the data, under NOR rules, complete exactly when the client stays and no write enable is refused |
| `AuxFlash.DivisorOfPow2IsEven` | drv/auxflash-server/src/main.rs:67-68 | a slot count above one that divides a power of two is even |
| `AuxFlash.SpareInRange` | drv/auxflash-server/src/main.rs:174-174 | every slot's spare exists, is another slot, and pairs back |
| `AuxFlash.Server.constructor` | drv/auxflash-server/src/main.rs:112-114 | the active slot is the first with the expected checksum |
| `AuxFlash.Server.ScanForActiveSlot` | drv/auxflash-server/src/main.rs:435-444 | finds the first slot with the expected checksum, or there is none |
| `AuxSpare.CopyPassesIff` | drv/auxflash-server/src/main.rs:196-225 | the overwritten spare passes exactly when its old bytes past the last erased sector add no CHCK or AUXI chunk after the image |
| `AuxSpare.CopyPassesInRoom` | drv/auxflash-server/src/main.rs:196-225 | if blank cells are no header, a spare that was erased, or an image that leaves room for a header in its last sector, always passes |
| `AuxSpare.CopyAgain` | drv/auxflash-server/src/main.rs:196-217 | a second copy reproduces the first, so a copy that does not pass never will |
| `AuxSpare.FullSectorsPassIff` | drv/auxflash-server/src/main.rs:196-225 | when the image ends with a sector, the copy passes exactly when the spare's own rest holds no CHCK or AUXI chunk |
| `AuxSpare.StaleSpareNeverPasses` | drv/auxflash-server/src/main.rs:196-225 | for every format and hash, such a copy over a spare that goes on with an old CHCK or AUXI chunk fails, and repeating it changes nothing |
| `AuxSpare.StaleSpareExample` | drv/auxflash-server/src/main.rs:196-225 | with any 32-byte hash there are an accepted image and a bad spare of this kind |
| `AuxFlash.Server.EnsureRedundancy` | drv/auxflash-server/src/main.rs:170-226 | other slots never change at any moment; a finished copy leaves the image, blank cells to the end of its last sector and then the old bytes, and succeeds exactly when those pass |
| `AuxFlash.LifeCut` | drv/auxflash-server/src/main.rs:196-217 | a power cut at any moment of a life leaves the active slot as it was |
| `AuxFlash.RestartFindsImage` | drv/auxflash-server/src/main.rs:435-444 | the start after a cut finds the slot that was active still good |
| `AuxFlash.EveryRestartFindsImage` | drv/auxflash-server/src/main.rs:112-122 | from one good slot on, over any number of lives, each cut at any moment, every start finds a slot with the expected checksum |
| `AuxFlash.Server.Serve` | drv/auxflash-server/src/main.rs:116-122 | any mixture of redundancy copies and client calls is a life in which the active slot never changes |
| `AuxFlash.Server.EraseSlot` | drv/auxflash-server/src/main.rs:268-290 | erases the slot, leaves other slots alone at every moment, and keeps the active image good unless it was told to erase it |
| `AuxFlash.Server.WriteSlotWithOffset` | drv/auxflash-server/src/main.rs:315-352 | refuses active, unaligned and overflowing writes, else stores a prefix of the data and never leaves the slot |
| `AuxFlash.Server.ReadSlotWithOffset` | drv/auxflash-server/src/main.rs:354-379 | returns exactly the slot's bytes, unless the range overflows or the client leaves |
| `AuxFlash.SlotRoundTrip` | drv/auxflash-server/src/main.rs:315-352 | after an erase, disjoint writes are all in the slot, in any pieces |
| `AuxFlash.Server.EraseWriteRead` | drv/auxflash-server/src/main.rs:268-379 | erase, disjoint writes and a read: the client gets its own data, no other slot changes at any moment, and a client that stays is served exactly when no write enable is refused |
| `AuxFlash.Server.WriteEach` | drv/auxflash-server/src/main.rs:315-352 | a row of writes stores all of them on success and never leaves its slot |
| `BitstreamLoad.StreamBlob` | drv/fpga-api/src/lib.rs:408-429 | runs to the end exactly when every piece can be read and sent, else reports the first that cannot; the bytes hashed are the bytes sent, each from its own read, and on stable flash the blob's bytes |
| `BitstreamLoad.LoadBitstreamFromAuxflash` | drv/fpga-api/src/lib.rs:392-437 | the load is finished exactly when the session opened, every piece was read and sent and what was streamed has the expected hash; it is cancelled otherwise, and the lock is given back |
| `ActiveLoad.StreamFromServer` | drv/fpga-api/src/lib.rs:408-429 | the bytes streamed are those of the slot, read piece by piece through the flash server |
| `ActiveLoad.LoadActive` | drv/fpga-api/src/lib.rs:392-437 | the load is finished exactly when the tag names a chunk in the good active slot, the session opens, every piece is read and sent and the body has the expected hash, and then exactly that body was streamed |
| `Sequencer.RunKeepsCoupling` | drv/gimlet-seq-server/src/main.rs:512-621 | over every run state equals the last report, A1 and A2PlusFans are never entered, and each state fixes mux, enables, CLD_RST and UART as documented |
| `Sequencer.LatchedStatesLeaveThroughA2` | drv/gimlet-seq-server/src/main.rs:857-860 | a reset or thermal trip is left only through A2 |
| `Sequencer.EnablesInA0` | drv/gimlet-seq-server/src/main.rs:874-893 | in every A0-family state of a run the host is enabled and its UART connected, except exactly after a way down that failed since A2 was left |
| `Sequencer.FailedDownRun` | drv/gimlet-seq-server/src/main.rs:891-893 | a run into A0 with the enables clear |
| `Sequencer.RailOnIff` | drv/gimlet-seq-server/src/main.rs:1366-1394 | a rail is on exactly when some request switched it on and none has switched it off since |
| `Sequencer.A2RailsOffIff` | drv/gimlet-seq-server/src/main.rs:919-953 | A2 has both rails off exactly when every rail a request left on was switched off by a later one |
| `Sequencer.QuietA2HasRailsOff` | drv/gimlet-seq-server/src/main.rs:919-953 | with no I2C fault or A0 timeout answered since boot or the last acknowledged way down, A2 has both rails off |
| `Sequencer.DownTurnsRailsOff` | drv/gimlet-seq-server/src/main.rs:891-899 | an acknowledged way down ends in A2 with both rails off |
| `Sequencer.RailsOnInA2Run` | drv/gimlet-seq-server/src/main.rs:948-950 | a run into A2 with both rails on |
| `Sequencer.FailedUpRollsBack` | drv/gimlet-seq-server/src/main.rs:919-953 | wherever power-up fails, enables end clear and the mux at the SP, and a rail stays on exactly when it was or came on and switching off did not reach it |
| `Sequencer.TickEffect` | drv/gimlet-seq-server/src/main.rs:529-615 | in A0 and A0PlusHP a thermal trip leads to A0Thermtrip, else a reset to A0Reset, else the NIC pin to A0 or A0PlusHP with CLD_RST to match; the new state is reported and nothing else changes |
| `SequencerServer.RetryI2cTxn` | drv/gimlet-seq-server/src/main.rs:624-654 | first success of at most four attempts, else the fourth error |
| `SequencerServer.SwitchRails` | drv/gimlet-seq-server/src/main.rs:1366-1394 | VCore first, then SOC, each within four attempts: how far it gets is what the bus answers |
| `SequencerServer.PollInterval` | drv/gimlet-seq-server/src/main.rs:1011-1017 | A0 is polled every 10 ms and A0PlusHP every 100, no other state |
| `SequencerServer.Server.PollUntil` | drv/gimlet-seq-server/src/main.rs:725-742 | every turn is one reading, one look at the timer and one nap of a tick; it ends at the first reading with the awaited value, or, no reading having shown it, at the first look past the deadline, and the loops sharing a deadline nap at most once per tick of it and once more |
| `SequencerServer.Server.PowerUp` | drv/gimlet-seq-server/src/main.rs:694-855 | the naps of the three loops fix the instant of every reading: rails come on only after A1 done, the right CPU and Group C good were read in that order, A0 is declared only after A0 done was, and each error states what was read, a timeout that every polled reading missed the value until the deadline was past |
| `SequencerServer.RailsSaw` | drv/gimlet-seq-server/src/main.rs:725-795 | in register values and pin levels: what had been read when the rails came on |
| `SequencerServer.A0Saw` | drv/gimlet-seq-server/src/main.rs:800-830 | what had been read when A0 was declared |
| `SequencerServer.CpuErrorSaw` | drv/gimlet-seq-server/src/main.rs:744-776 | which pin made each CPU check fail |
| `SequencerServer.TimeoutSaw` | drv/gimlet-seq-server/src/main.rs:725-830 | for each timeout: no polled reading had the awaited value, and 2000 ticks were past |
| `SequencerServer.Server.PowerDown` | drv/gimlet-seq-server/src/main.rs:857-913 | fails exactly when the bus stops the rails from switching off, and then stops there |
| `SequencerServer.Server.A0Failure` | drv/gimlet-seq-server/src/main.rs:919-953 | does exactly the rollback, switching the rails off as far as the bus answers |
| `SequencerServer.Server.SetStateInternal` | drv/gimlet-seq-server/src/main.rs:663-917 | every request is one step of a run, illegal exactly outside A2 to A0 and the A0 family to A2; success leaves exactly the documented hardware, failure the state as it was, and from A2 the enables clear and the mux at the SP |
| `SequencerServer.Server.HandleTimer` | drv/gimlet-seq-server/src/main.rs:512-621 | every tick, stale ones included, is one step of a run with the state, report and CLD_RST that the flags and the NIC pin call for, and moves the deadline by 10 or 100 exactly while there is something to poll |
| `Eeprom.SimpleIsSplice` | drv/i2c-devices/src/at24csw080.rs:156-166 | writing byte by byte sets exactly the addressed range |
| `Eeprom.PageWriteIsSimple` | drv/i2c-devices/src/at24csw080.rs:180-198 | a page write that does not wrap is a simple write |
| `Eeprom.At24Csw080.Handle` | drv/i2c-devices/src/at24csw080.rs:427-434 | bus address and word address together give the address back |
| `Eeprom.At24Csw080.WriteByte` | drv/i2c-devices/src/at24csw080.rs:156-166 | stores one byte or nothing |
| `Eeprom.At24Csw080.WritePage` | drv/i2c-devices/src/at24csw080.rs:180-198 | refuses bad pages, else stores the bytes as a simple write or nothing |
| `Eeprom.At24Csw080.WriteBuffer` | drv/i2c-devices/src/at24csw080.rs:205-237 | the fast writer equals the simple one on a prefix, on the whole buffer exactly when every bus write is acknowledged |
| `Eeprom.At24Csw080.ReadInto` | drv/i2c-devices/src/at24csw080.rs:136-150 | returns exactly the addressed bytes or the right error |
| `Eeprom.At24Csw080.RoundTrip` | drv/i2c-devices/src/at24csw080.rs:136-237 | a written buffer reads back unchanged and nothing else moved, exactly when the bus does not fail |
| `KernelTables.AddSpan` | sys/kern/build.rs:92-110 | inserting a span's chunks appends them, unless the base leaves 32 bits |
| `KernelTables.BuildTable` | sys/kern/build.rs:66-111 | the table holds a null region without access, the shared regions as configured, and after them exactly the chunks of the owned spans, each with its place, its size and the attributes of its span, every key once |
| `KernelTables.ChunksTile` | sys/kern/build.rs:93-100 | the chunks of a span cover it without gap or overlap |
| `KernelTables.ChunkLookup` | sys/kern/build.rs:127-139 | a chunk key finds the chunk of that task's own span |
| `KernelTables.TranslatedAddressIsOwned` | sys/kern/build.rs:331-345 | a translated address is in one of the task's own chunks exactly when its offset is in the span |
| `KernelTables.TranslatesIff` | sys/kern/build.rs:331-345 | an address translates exactly when the task owns a non-empty span by that name and the sum is a 32-bit address |
| `KernelTables.SortedBySort` | sys/kern/build.rs:156-160 | the regions end up in order of base address |
| `KernelTables.SortKeepsKeys` | sys/kern/build.rs:156-160 | sorting keeps the regions as a multiset |
| `KernelTables.TaskRegions` | sys/kern/build.rs:120-160 | acceptance exactly when shared names are configured and at most eight regions are asked for; then eight entries in order of base that give the null region, every chunk of every owned span and every named shared region, and nothing else |
| `KernelTables.BuildIrqMaps` | sys/kern/build.rs:206-220 | each interrupt goes to the task and notification of its configuration, the two maps are inverse and each interrupt is listed once |
| `FpgaServer.Server.ClosedRecvFail` | drv/fpga-server/src/main.rs:258-263 | a dead holder frees the lock and the loader |
| `FpgaServer.Server.Lock` | drv/fpga-server/src/main.rs:265-285 | the first caller gets the lock, the holder is told it already has it, the assertion holds |
| `FpgaServer.Server.Release` | drv/fpga-server/src/main.rs:287-300 | frees the lock, the assertion holds |
| `FpgaServer.Server.CheckLockAndGetDevice` | drv/fpga-server/src/main.rs:215-234 | accepts exactly an existing device that is the locked one if any, the assertion holds |
| `FpgaServer.Server.LockUserDesign` | drv/fpga-server/src/main.rs:236-245 | takes the port only for a device the caller may use |
| `FpgaServer.Header` | drv/fpga-server/src/main.rs:613-618 | command, then the address high byte first |
| `FpgaServer.CloseExchange` | drv/fpga-server/src/main.rs:208-212 | dropping the guard leaves the ports balanced |
| `FpgaServer.Server.UserDesignWrite` | drv/fpga-server/src/main.rs:512-547 | one balanced exchange that goes on until an access fails, with the right error, and success sends exactly header and data inside it |
| `FpgaServer.Server.UserDesignRead` | drv/fpga-server/src/main.rs:474-510 | one balanced exchange that goes on until an access fails, with the right error, and success hands on exactly what the port replied, as many bytes as asked for |
| `FpgaServer.Server.Serve` | drv/fpga-server/src/main.rs:254-263 | over any events under closed receive the ports stay balanced, no assertion fires, and the lock and the traffic of each event are as traced |
| `FpgaServer.LockExcludes` | drv/fpga-server/src/main.rs:208-300 | from the grant of a lock to its release or the death of its holder, all traffic is on the locked device and caused by the holder |
| `SbRmi.Alert` | drv/i2c-devices/src/sbrmi.rs:162-225 | succeeds exactly when the registers 0x10-0x1F and 0x50-0x5F can be read, and then bit t % 8 of byte t / 8 is bit t % 64 / 16 of register t % 16 of bank t / 64 |

## Left out

- Host access to flash while the mux is at the host, raw client writes to sector 0 with `AllowModificationsToSector0`, and write-enable refusals inside a run: the durability runs assume power loss is the only fault.
- The poll for write completion and the QSPI transfer machinery: a command is one step of the chip. Which write enables a chip refuses, which bus accesses fail and when a client goes away are parameters.
- A chip given an address past its capacity is assumed to ignore the upper address bits; this is a property of the part, not of the repository.
- The real TLV-C crate, CRC-32C and SHA3-256: parameters of the model, with the layout rules stated in `Tlvc.dfy`.
- `slot_sector_erase`, identification and status calls of both flash servers, and hashing of host flash: they would only add easy members.
- AuxFlash.Server.Serve: takes clients that do not erase the active slot, which the source does not check; erasing it would destroy the image that the life is about.
- AuxFlash.Server.WriteSlotWithOffset: requires a slot below the slot count, which the source does not check.
- AuxFlash.Server.ReadSlotWithOffset: requires a slot below the slot count, which the source does not check.
- HfServer.HostFlash.PageProgram: bounds the data by a page, as the request's lease type does.
- KernelTables.BuildTable: takes maps as sequences with distinct keys in any order, and treats 32-bit overflow of a running base as a failed build.
- Priorities, flags, perfect hashing and text generation of the kernel build script.
- The sequencer's start-up, voltage warnings, NMI, fans and SPD loading; the host flash server's `set_mux` always succeeds, so its error branches are not modelled; an I2C transaction that is not acknowledged is taken to have no effect on its rail.
- EEPROM write protection and security registers; a bus write that fails is taken to store nothing.
- FPGA bitstream loading inside the server, decompression and device enable and reset calls; releasing a user-design port is taken to succeed.
- Restart of one task while the rest of the board runs.
