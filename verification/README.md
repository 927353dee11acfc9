# tgt: a Dafny model of its state machines, formats and protocols

tgt is a user-space SCSI target that speaks iSCSI. This project models the parts of it whose correctness
is a matter of whole runs, loops or byte layouts, and proves what those parts are for:

* the **virtual tape**: a file of 48-byte headers linked both ways behaves as a sequence of blocks and a
  position, down to the bytes (`Bytes`, `TapeFormat`, `TapeMachine`, `TapeLayout`, `TapeDrive`,
  `TapeTheorems`, `TapeLaws`), on top of **CRC32C** (`Crc32c`);
* **persistent reservations** and the access gate (`Reservations`, `ReservationUnit`, `AccessGate`,
  `ReservationLaws`);
* the **task set** of a logical unit, and the **lifetimes** of nexuses, units and commands (`TaskSet`,
  `CmdQueue`, `Lifetimes`, `LifetimeLaws`, `TargetLists`);
* the **iSCSI session**: serial numbers, command order, Data-In, Data-Out and R2T, login with CHAP, text keys
  and continued text responses, the binary codecs of CHAP (`Serial`, `CmdSn`, `DataIn`, `DataOut`, `Login`,
  `LoginLaws`, `LoginConnection`, `TextKeys`, `TextResponse`, `ChapCodec`);
* the two **completion protocols** of the I/O threads (`WorkerPool`, `SignalMode`, `NotifyMode`) and the
  **asynchronous I/O batcher** (`AioBatch`, `AioBatcher`);
* the **sheepdog** backing store: copy-on-write writes, reads, and the exclusion of overlapping requests
  (`Sheepdog`, `SheepdogIo`, `SheepdogRead`, `Inflight`).

Objects that the program updates in place are classes whose methods are proved against functions on values
(`View() == F(old(View()))`). What those functions decide and compute is proved in terms of what a caller can see, and
the laws are lemmas about runs of them. The concurrent
protocols are state machines whose steps are what runs under one lock, or between two.

## What is not as one might expect

Where the code does something else than its documentation or the standard suggests, the model follows the code,
and the exact condition is proved.

* Tape: spacing forward over exactly the remaining blocks reports end-of-data with a check condition; spacing back
  never reports beginning of medium; a zero-length READ on a filemark moves over it with GOOD;
  spacing filemarks in reverse counts the block it stands on and stops before the mark.
* Reservations: PREEMPT accepts any type and scope, and with a non-zero key under an all-registrants reservation
  can remove the holder's registration (`Reservations.Safe` is the exact condition, on the state and the arguments;
  `Reservations.PreemptLosesHolder` and `Reservations.PreemptTakesInvalidType` are instances). PRgeneration advances
  by two when a registration given up ends the reservation (`Reservations.GenerationTracksKeys`). WRITE AND VERIFY
  and ORWRITE are gated only under Exclusive Access, and WRITE SAME and UNMAP not at all
  (`AccessGate.GateDecides`, `AccessGate.WriteSamePasses`).
* Task set: a SIMPLE command overtakes a queued ORDERED one exactly when the set is not blocked
  (`TaskSet.OvertakesIff`). A HEAD OF QUEUE command that finishes beside an ORDERED one lets SIMPLE commands run beside
  that (`TaskSet.NeverMixedIff`, an instance in `TaskSet.HeadLetsSimpleIn`).
* CmdSN: a number repeated while its first copy waits leaves a stale entry that stalls everything behind it
  (`CmdSn.AcceptKeepsInv` is the exact condition, `CmdSn.RepeatStalls` an instance).
* Login: a matched CHAP response stores the number 2 in the connection's state, where it means "authenticating",
  instead of in the authentication state. No connection gets in because of it (`Login.LoginSafe`).
* Sheepdog read: for an object that was never written the code clears the front of the buffer, whatever the piece.
  A read is right for every buffer if and only if all objects of the range after the first have been written
  (`SheepdogRead.ReadRightIff`, an instance in `SheepdogRead.GapExample`).
* Sheepdog exclusion: a release wakes one sleeper, which may be the wrong one (`Inflight.WakesRightIff` says exactly
  when, `Inflight.SignalCanMiss` is a run in which it is); still no request is left behind (`Inflight.EveryRun`).
* Tape writes: a fixed-length write whose count asks for more than was sent is carried out with whatever follows the
  data in memory, and then reported as a write error (`TapeTheorems.FixedReadsBack`).

## Model

| member | source | states |
|---|---|---|
| `Bytes.GetPut` | usr/be_byteshift.h:4-79 | big-endian get after put gives back every value that fits, for any width |
| `Bytes.PutGet` | usr/be_byteshift.h:4-79 | put after get gives back the bytes |
| `Bytes.MostSignificantFirst` | usr/be_byteshift.h:4-79 | the first byte of a number counts most |
| `Crc32c.BitwiseCrc` | usr/libcrc32c.c:66-76 | the bit-by-bit loop computes the specification CRC of every message from every seed |
| `Crc32c.BitwiseByte` | usr/libcrc32c.c:70-74 | its inner loop is eight division steps |
| `Crc32c.TableCrc` | usr/libcrc32c.c:160-170 | the table-driven loop computes the same CRC, for every seed and message |
| `Crc32c.TableIsShift` | usr/libcrc32c.c:88-153 | each of the 256 table entries is the eight-step remainder of its index |
| `Crc32c.TableStep` | usr/libcrc32c.c:165-167 | one table look-up equals eight bit steps on the whole 32-bit register |
| `Crc32c.CrcAppend` | usr/libcrc32c.c:66-76 | the CRC of a concatenation is the CRC of the second part seeded with that of the first |
| `Crc32c.CrcInjectiveInSeed` | usr/libcrc32c.c:66-76 | for a fixed message, different seeds give different CRCs |
| `Crc32c.BurstDetected` | usr/libcrc32c.c:66-76 | messages of one length that differ only within four consecutive bytes have different CRCs |
| `TapeFormat.RoundTrip` | usr/libssc.c:185-233 | a header written and read back is the same header, and its checksum is accepted |
| `TapeFormat.FieldOffsets` | usr/libssc.c:211-233 | each field of a header is written at its own offset, most significant byte first |
| `TapeFormat.OctetValue` | usr/libcrc32c.c:66-76 | a byte goes into the checksum with its own value |
| `TapeFormat.ReadIsWritten` | usr/libssc.c:185-209 | any 48 bytes are what would be written for the header read from them, if and only if their checksum is right |
| `TapeFormat.DamageDetected` | usr/libssc.c:185-209 | any damage within four consecutive bytes of a header's payload is found by the checksum |
| `TapeFormat.BlockHeadersLawful` | usr/libssc.c:185-233 | the header codec satisfies the laws that the tape relies on |
| `TapeMachine.AfterMarksMeans` | usr/bs_ssc.c:223-247 | forward filemark spacing stops just after the n-th mark, and at end-of-data when there are fewer |
| `TapeMachine.BeforeMarksMeans` | usr/bs_ssc.c:195-221 | reverse filemark spacing counts the block it stands on and stops before the n-th mark |
| `TapeLayout.ChainShape` | usr/bs_ssc.c:122-193 | offsets strictly increase, prev, next and block numbers agree, and the end-of-data header points to itself |
| `TapeLayout.AppendStored` | usr/bs_ssc.c:122-193 | an append leaves exactly the earlier blocks and the new one stored in the file, byte for byte |
| `TapeLayout.AppendFromCache` | usr/bs_ssc.c:122-193 | the headers computed from the cached one are those that the chain needs |
| `TapeDrive.HeaderReadsBack` | usr/libssc.c:185-209 | the header of every block of a stored tape, and of end-of-data, can be read at its offset and is the header of the chain |
| `TapeDrive.Drive.SkipNext` | usr/bs_ssc.c:74-80 | moves one block forward, and stays at end-of-data |
| `TapeDrive.Drive.SkipPrev` | usr/bs_ssc.c:82-94 | moves one block back, and stays at the first block |
| `TapeDrive.Drive.Rewind` | usr/bs_ssc.c:96-114 | position zero, file unchanged |
| `TapeDrive.Drive.Append` | usr/bs_ssc.c:122-193 | the tape becomes its blocks before the position and the new one; the file stays a well-formed chain |
| `TapeDrive.Drive.Write` | usr/bs_ssc.c:501-542 | a variable-length write is the abstract write, with the end-of-medium warning exactly past the capacity |
| `TapeDrive.Drive.WriteFixed` | usr/bs_ssc.c:501-542 | a fixed-length write appends the data cut into blocks, for every count: blocks beyond the data sent are taken from the memory behind it, and any mismatch of the sizes is a write error |
| `TapeDrive.Drive.WriteFilemarks` | usr/bs_ssc.c:462-472 | refines the abstract filemark write, which `TapeLaws.MarksWritten` describes |
| `TapeDrive.Drive.Read` | usr/bs_ssc.c:309-368 | reads the bytes, answers and moves as the abstract read, which `TapeLaws.ReadAnswers` describes |
| `TapeDrive.Drive.ReadFixed` | usr/bs_ssc.c:370-431 | the same for fixed-length reads, with `TapeLaws.FixedReadAnswers` |
| `TapeDrive.Drive.SpaceBlocks` | usr/bs_ssc.c:269-307 | spacing by k blocks either way lands on the position clamped to the tape |
| `TapeDrive.Drive.SpaceMarksForward` | usr/bs_ssc.c:223-247 | lands where the abstract forward spacing does, with its status |
| `TapeDrive.Drive.SpaceMarksReverse` | usr/bs_ssc.c:195-221 | lands where the abstract reverse spacing does, with its status |
| `TapeDrive.Drive.SpaceFilemarks` | usr/bs_ssc.c:249-267 | either direction, and nothing for a count of zero |
| `TapeDrive.Drive.SpaceEndOfData` | usr/bs_ssc.c:554-561 | moves behind the last block |
| `TapeDrive.Drive.Execute` | usr/bs_ssc.c:433-609 | every command acts on the file as its abstract operation acts on (blocks, position), with its reply; the laws of `TapeLaws` and `TapeTheorems` are about those operations |
| `TapeDrive.Drive.Run` | usr/bs_ssc.c:433-609 | so does every run of commands, the file staying a well-formed chain throughout |
| `TapeDrive.Drive.constructor` | usr/tgtimg.c:269-337 | a new image is a well-formed empty tape with the requested capacity |
| `TapeDrive.NewTape` | usr/tgtimg.c:256-340 | the same for the image tool's capacity argument, 0 meaning 8000 |
| `TapeTheorems.WritesPut` | usr/bs_ssc.c:501-542 | writes lay their blocks down in order and discard everything beyond |
| `TapeTheorems.ReadsReturn` | usr/bs_ssc.c:309-368 | reading blocks with their own lengths returns them in order, all GOOD |
| `TapeTheorems.WrittenReadsBack` | usr/bs_ssc.c:269-368 | write any blocks anywhere, space back, read: the same bytes, and everything before is untouched |
| `TapeTheorems.FixedReadsBack` | usr/bs_ssc.c:370-431 | a fixed-length write of any count and block size reads back as the blocks that it took, which are the data sent if and only if the sizes agree, as they do whenever the write was answered with GOOD |
| `TapeLaws.ReadAnswers` | usr/bs_ssc.c:309-368 | on every tape and for every length: the data is the common prefix of request and block, GOOD exactly for the block's own length, BLANK CHECK exactly at end of data, a filemark exactly on one, a wrong length otherwise, and when the read moves on |
| `TapeLaws.FixedReadAnswers` | usr/bs_ssc.c:370-431 | a fixed-length read returns the longest run of blocks of its size, GOOD exactly when that is enough, stopping behind a filemark and before any other block |
| `TapeLaws.WriteRewindRead` | usr/bs_ssc.c:96-114 | write, REWIND, read: every block of the tape comes back from the first on, over every run of this form |
| `TapeLaws.MarksWritten` | usr/bs_ssc.c:462-472 | WRITE FILEMARKS keeps the blocks before the position and puts as many marks behind them as asked for, and nothing else |
| `TapeLaws.MarksSpaced` | usr/bs_ssc.c:223-247 | spacing over them from before comes out behind as many as asked for, with GOOD, or at end of data |
| `TapeLaws.SpaceFilemarksAnswers` | usr/bs_ssc.c:249-267 | spacing over filemarks is GOOD exactly when there are that many in the direction, and else reports the end that was met |
| `TapeLaws.SpaceIsSteps` | usr/bs_ssc.c:269-307 | spacing over k blocks is k times spacing over one, either way |
| `TapeLaws.SpaceBlocksAnswers` | usr/bs_ssc.c:269-307 | forward spacing is GOOD exactly when it ends on a block, and reports end of data otherwise |
| `TapeLaws.WriteAtEndOfData` | usr/bs_ssc.c:554-561 | after spacing to end of data a write keeps every block |
| `TapeLaws.WriteAnswers` | usr/bs_ssc.c:501-542 | a write is always carried out, with a warning exactly when headers and data exceed the capacity |
| `TapeLaws.NothingWritten` | usr/bs_ssc.c:462-520 | a write of no blocks or marks discards nothing |
| `Reservations.StepKeepsInv` | usr/spc.c:1163-1612 | a service action keeps one registration per nexus, non-zero keys and a listed, valid holder if and only if it is not the unsafe kind of PREEMPT |
| `Reservations.PreemptKeepsInv` | usr/spc.c:1524-1612 | the exact condition under which PREEMPT keeps that invariant |
| `Reservations.PreemptGoodIff` | usr/spc.c:1524-1570 | PREEMPT is carried out if and only if the nexus is registered with the key it gives, a non-zero key to preempt is registered, and a zero key finds no reservation but an all-registrants one |
| `Reservations.PreemptLosesHolder` | usr/spc.c:1524-1612 | a PREEMPT that removes the registration of the nexus that holds the reservation, and leaves it the holder |
| `Reservations.PreemptTakesInvalidType` | usr/spc.c:1524-1612 | a PREEMPT that takes a reservation over with a type that RESERVE would refuse |
| `Reservations.RegisterKeepsInv` | usr/spc.c:1288-1345 | REGISTER and REGISTER AND IGNORE keep it, with any keys |
| `Reservations.UnregisterKeepsInv` | usr/spc.c:1190-1256 | so does unregistering, with the hand-over or end of the reservation it holds |
| `Reservations.RefusedChangesNothing` | usr/spc.c:1288-1612 | an action that is refused leaves registrations, holder and generation as they were |
| `Reservations.GenerationTracksKeys` | usr/spc.c:1190-1612 | any change to the registered keys advances PRgeneration; it advances by two modulo 2^32 exactly when a registration given up ends the reservation, by one with every other REGISTER, CLEAR or PREEMPT carried out, and never otherwise |
| `Reservations.UpdateFacts` | usr/spc.c:1288-1345 | changing one registration changes no other and keeps the list's order |
| `ReservationLaws.RegisterLaw` | usr/spc.c:1288-1345 | REGISTER is carried out exactly with the nexus's own key, or none for a new one, or by force; the nexus then has the new key and keeps its reservation, and nobody else's registration changes |
| `ReservationLaws.UnregisterLaw` | usr/spc.c:1196-1256 | unregistering removes this registration only; the reservation stays with its holder, ends, or goes to another registrant, as its type says |
| `ReservationLaws.ReserveLaw` | usr/spc.c:1347-1402 | RESERVE is GOOD exactly for a registrant, a supported type and scope, and no other holder or type; the nexus then holds that type |
| `ReservationLaws.ReleaseLaw` | usr/spc.c:1404-1473 | RELEASE ends the reservation exactly when a holder gives its key and the type and scope; by another registrant it is GOOD without effect |
| `ReservationLaws.ClearLaw` | usr/spc.c:1475-1522 | CLEAR is for registrants with their key, and leaves no registration and no holder |
| `ReservationLaws.PreemptLaw` | usr/spc.c:1524-1612 | which registrations a PREEMPT removes, for every nexus, and when it takes the reservation |
| `ReservationLaws.ReservedFromTheStart` | usr/spc.c:1288-1402 | from an empty unit: register, reserve, and over every run until a command ends it no other nexus's WRITE is dispatched, and the holder's commands are |
| `ReservationUnit.LogicalUnit.Lookup` | usr/spc.c:1163-1175 | the list walk finds the registration of a nexus |
| `ReservationUnit.LogicalUnit.HasKey` | usr/spc.c:1177-1188 | the list walk finds whether a key is registered |
| `ReservationUnit.LogicalUnit.UnregisterAndClean` | usr/spc.c:1196-1256 | in place what the specification does on values |
| `ReservationUnit.LogicalUnit.Register` | usr/spc.c:1288-1345 | refines DoRegister |
| `ReservationUnit.LogicalUnit.Reserve` | usr/spc.c:1347-1402 | refines DoReserve |
| `ReservationUnit.LogicalUnit.Release` | usr/spc.c:1404-1473 | refines DoRelease |
| `ReservationUnit.LogicalUnit.Clear` | usr/spc.c:1475-1522 | refines DoClear |
| `ReservationUnit.LogicalUnit.Preempt` | usr/spc.c:1524-1612 | refines DoPreempt, with its list walk that removes registrations |
| `AccessGate.GateDecides` | usr/spc.c:1709-1745 | for every type, nexus and opcode: a conflict exactly when the reservation does not admit the nexus, as holder or registrant, and the opcode is one that the type keeps from those |
| `AccessGate.GateByName` | usr/spc.c:1709-1745 | by name: WRITE is refused to the excluded under all six types, READ under the Exclusive Access types only, and INQUIRY and its like never |
| `AccessGate.PerformDecides` | usr/scsi.c:482-548 | RESERVATION CONFLICT exactly behind the gates before it, dispatched exactly behind all |
| `AccessGate.ReservationStands` | usr/spc.c:1288-1612 | a reservation of one holder outlives every event that does not name its end |
| `AccessGate.ExclusionOverRuns` | usr/scsi.c:533-541 | over every run in which nothing ends a reservation of one holder: it stands in every state, and every command of every nexus is dispatched exactly when the other gates agree and the nexus is admitted or the opcode not gated |
| `AccessGate.AllRegistrantsOverRuns` | usr/scsi.c:533-541 | the same for the all-registrants types, whoever the holder pointer comes to name |
| `AccessGate.WriteSamePasses` | usr/sbc.c:872-873 | WRITE SAME and UNMAP of any nexus are dispatched whatever is reserved |
| `AccessGate.InvariantOverRuns` | usr/spc.c:1163-1612 | over every run of actions by any nexuses the reservation invariant holds in every state if and only if no PREEMPT of the unsafe kind is carried out |
| `TaskSet.RunKeepsInv` | usr/target.c:1053-1094 | over every run: blocked only by an active ORDERED or HEAD command, a disabled head of the queue, and every command that arrived is active, queued or finished |
| `TaskSet.QueueWaitsForActive` | usr/target.c:1241-1272 | a queued command always has an active one to wait for |
| `TaskSet.QueueIsFifo` | usr/target.c:1156-1190 | commands that had to wait are dispatched in arrival order, each once, and are then active until they complete |
| `TaskSet.DispatchedAreActive` | usr/target.c:1156-1294 | over every run, the commands dispatched at once or from the queue are exactly those that are active or have completed |
| `TaskSet.NeverStuck` | usr/target.c:1241-1294 | work left means that a command is active |
| `TaskSet.CompletionsDrain` | usr/target.c:1241-1294 | without arrivals, as many completions as there are commands empty the set |
| `TaskSet.OrderedRunsAlone` | usr/target.c:1053-1094 | in runs without HEAD, an ORDERED command is never active with another |
| `TaskSet.MixesIff` | usr/target.c:1053-1094 | with HEAD commands too: one event makes a SIMPLE command active beside an ORDERED one if and only if the set is not blocked, or is unblocked by a finishing HEAD command, while an ORDERED command is active and a SIMPLE one arrives or heads the queue |
| `TaskSet.NeverMixedIff` | usr/target.c:1053-1094 | over every run the two are never active together if and only if no such event occurs |
| `TaskSet.HeadLetsSimpleIn` | usr/target.c:1274-1294 | a run in which they are |
| `TaskSet.OvertakesIff` | usr/target.c:1053-1083 | an arrival passes a non-empty queue if and only if it is HEAD, or it is SIMPLE, the queue's head ORDERED and the set not blocked |
| `TaskSet.FlagRemembers` | usr/target.c:1053-1094 | over every run the set is blocked exactly when the latest dispatch or completion of an ORDERED or HEAD command was a dispatch |
| `TaskSet.ArrivalDecides` | usr/target.c:1053-1083 | so which arrivals are dispatched at once, after every run |
| `TaskSet.SimpleOvertakesOrdered` | usr/target.c:1053-1083 | a run in which it does |
| `CmdQueue.Queue.CmdEnabled` | usr/target.c:1053-1083 | decides as the specification |
| `CmdQueue.Queue.PostPerform` | usr/target.c:1085-1094 | counts and blocks as the specification; the counter is the number of active commands |
| `CmdQueue.Queue.Perform` | usr/target.c:1156-1190 | dispatches or queues as the specification |
| `CmdQueue.Queue.PostDone` | usr/target.c:1241-1272 | the draining loop dispatches exactly the commands that the specification releases, in order |
| `CmdQueue.Queue.Done` | usr/target.c:1274-1294 | completion keeps the invariant and refines Finish |
| `Lifetimes.RunKeepsInv` | usr/target.c:284-372 | over every run of creation, removal, arrival, completion, reserve and release: one record per nexus and unit in both lists, no command of a removed nexus or unit, reservations only of live nexuses |
| `Lifetimes.NextKeepsInv` | usr/target.c:284-372 | every single event keeps that; the nexus of a completed command is still there |
| `Lifetimes.LookupFinds` | usr/target.c:1096-1107 | the record of the serving unit is found exactly once, so the look-up never fails |
| `Lifetimes.NoDanglingCommand` | usr/target.c:1109-1154 | a command of a unit, waiting or active, is listed by a nexus that exists |
| `LifetimeLaws.CreateNexusLaw` | usr/target.c:284-345 | a nexus is created exactly when its number is new and not zero, and nothing else changes |
| `LifetimeLaws.DestroyNexusLaw` | usr/target.c:347-372 | removed exactly when it has no command; its reservations go, no others do |
| `LifetimeLaws.CreateLuLaw` | usr/target.c:660-692 | a unit is created exactly when its number is new, idle and not reserved |
| `LifetimeLaws.DestroyLuLaw` | usr/target.c:720-770 | removed exactly when it is not LUN 0 and has no command |
| `LifetimeLaws.SubmitLaw` | usr/target.c:1109-1154 | a command of a known nexus is one more of its nexus and of the unit named, or of LUN 0, and of no other |
| `LifetimeLaws.CompleteLaw` | usr/target.c:1274-1318 | a completed command is one less of both, and of no other |
| `LifetimeLaws.CommandsConserved` | usr/target.c:1109-1318 | over every run a command is with its unit, and listed by its nexus, as often as it was accepted more than completed |
| `LifetimeLaws.ReserveLaw` | usr/target.c:878-919 | RESERVE succeeds exactly when nobody else has the unit; only the owner's or a forced RELEASE gives it up |
| `LifetimeLaws.ReservationOverRuns` | usr/target.c:878-919 | over every run without an event that ends it the reservation stands and no other nexus gets the unit |
| `TargetLists.TargetState.ItNexusCreate` | usr/target.c:284-345 | refines CreateNexus, with its walk over the units |
| `TargetLists.TargetState.ItNexusDestroy` | usr/target.c:347-372 | refines DestroyNexus |
| `TargetLists.TargetState.DeviceCreate` | usr/target.c:660-692 | refines CreateLu, with its walk over the nexuses |
| `TargetLists.TargetState.DeviceDestroy` | usr/target.c:720-770 | refines DestroyLu |
| `TargetLists.InsertSorted` | usr/target.c:660-664 | a new unit's place in the device list keeps the list sorted by number, and loses no unit |
| `TargetLists.FirstIsZero` | usr/target.c:1128-1132 | the first unit of the list, which serves commands for unknown units, is LUN 0 |
| `TargetLists.TargetState.HandleAll` | usr/target.c:1109-1318 | the target object, with its lists and its units' queues, through every run of events: it goes through the states of the specification, and at the end there is one record per nexus and unit on both lists, no command without its nexus and unit, and no reservation of a removed nexus |
| `Serial.BeforeInWindow` | usr/util.h:84-87 | inside a window of 2^31 the signed 32-bit comparison orders by distance, across wrap-around |
| `Serial.PlusIs` | usr/util.h:84-87 | counting on from a serial number is addition modulo 2^32 |
| `CmdSn.Session.TaskQueue` | usr/iscsi/iscsid.c:1594-1643 | the insertion walk and the retry loop compute Accept, and say which tasks `CmdSn.RefusedIff` refuses |
| `CmdSn.RefusedIff` | usr/iscsi/iscsid.c:1594-1643 | a task is refused and forgotten exactly when it is not immediate and its number lies before the expected one; every other is executed at once or waits |
| `CmdSn.ImmediateAtOnce` | usr/iscsi/iscsid.c:1604-1605 | for every arrival sequence the immediate tasks are executed once each, in order, each at its own arrival and without using up a number |
| `CmdSn.Session.Run` | usr/iscsi/iscsid.c:1608-1625 | the retry loop executes the expected task and every waiting one that becomes expected |
| `CmdSn.Session.Place` | usr/iscsi/iscsid.c:1635-1638 | the walk stops at the first entry that the new number is before |
| `CmdSn.AcceptKeepsInv` | usr/iscsi/iscsid.c:1594-1643 | the pending list stays strictly sorted without the expected number if and only if the arrival does not repeat a waiting number |
| `CmdSn.ExecutionInOrder` | usr/iscsi/iscsid.c:1594-1643 | for every arrival sequence, execution is base, base+1, ... mod 2^32 without gap or repeat |
| `CmdSn.NothingLost` | usr/iscsi/iscsid.c:1594-1643 | in windowed runs without repeats every task is executed or waiting, once |
| `CmdSn.PermutationDrains` | usr/iscsi/iscsid.c:1594-1643 | any order of n <= 2^31 consecutive numbers ends with all executed in order and none waiting |
| `CmdSn.RepeatStalls` | usr/iscsi/iscsid.c:1616-1620 | a repeated number leaves an entry that keeps an expected task waiting |
| `CmdSn.StaleHeadStays` | usr/iscsi/iscsid.c:1616-1620 | it stays at the head over every sequence of arrivals in its half of the numbers, until ExpCmdSN is 2^31 away, and nothing that waits is executed |
| `DataIn.Transmitter.DataRspBuild` | usr/iscsi/iscsid.c:1113-1165 | one contiguous PDU, Final exactly at the end of the data, full otherwise, status collapsed only into a final GOOD |
| `DataIn.Transmitter.TxStart` | usr/iscsi/iscsid.c:1803-1838 | data while there is some to send, a response otherwise |
| `DataIn.Transmitter.Transmit` | usr/iscsi/iscsid.c:1933-1957 | the task's turns terminate with a stream that tiles the buffer, DataSN consecutive, Final once and last, and advance StatSN once |
| `DataIn.StreamDelivers` | usr/iscsi/iscsid.c:1113-1165 | the data of such a stream concatenates to the buffer, and it carries exactly one status |
| `DataOut.TakeKeepsInv` | usr/iscsi/iscsid.c:1167-1193 | every step with a conforming initiator keeps offset + r2t_count equal to the length, the bytes received right, R2TSNs consecutive, and R2Ts full bursts, but for the last, that tile what was not sent unsolicited |
| `DataOut.RunKeepsInv` | usr/iscsi/iscsid.c:1546-1592 | over every run, which is bounded by the data left to send |
| `DataOut.StopsWhenQueued` | usr/iscsi/iscsid.c:1393-1410 | the exchange can go on exactly while the command has not been queued, so it is queued exactly once |
| `DataOut.WriteCompletes` | usr/iscsi/iscsid.c:1546-1592 | a finished exchange has the initiator's bytes in the buffer and queued the command once, held pending first or not |
| `DataOut.Exchange` | usr/iscsi/iscsid.c:1393-1592 | the task object through a whole write, whatever the order of PDUs, R2Ts and turns: it ends with the initiator's bytes in its buffer, queued exactly once, and R2Ts that tile what was not sent unsolicited |
| `Login.ServeKeepsInv` | usr/iscsi/iscsid.c:665-831 | one login PDU keeps the invariant, never returns to an earlier stage, closes exactly when it refuses, and announces full feature phase exactly when it is reached |
| `Login.LoginSafe` | usr/iscsi/iscsid.c:665-831 | over every sequence of login PDUs the stage never falls, and with accounts full feature phase needs a response equal to the digest of the connection's own challenge under a secret of the target |
| `Login.HonestLoginSucceeds` | usr/iscsi/chap.c:386-486 | an initiator that knows a secret gets in |
| `Login.ScanKeysUsable` | usr/iscsi/iscsid.c:209-252 | a target with accounts never agrees to no authentication, one without never to CHAP |
| `Login.TransitionKeeps` | usr/iscsi/iscsid.c:766-812 | stage transitions only go forward, and full feature phase is announced exactly when entered |
| `LoginLaws.TransitionDecides` | usr/iscsi/iscsid.c:766-812 | the exact condition on state and PDU under which a transit request is granted, to either stage, held back, or refused, and the stage that follows |
| `LoginLaws.FirstPduDecides` | usr/iscsi/iscsid.c:696-764 | what the first PDU leads to: security, authentication, the operational stage or the end |
| `LoginLaws.ChallengeDecides` | usr/iscsi/chap.c:333-384 | challenged exactly with a supported algorithm in the list |
| `LoginLaws.ResponseDecides` | usr/iscsi/chap.c:386-617 | authenticated exactly with the digest of the challenge under a secret of the target |
| `LoginLaws.StageMatters` | usr/iscsi/iscsid.c:665-764 | PDUs of another stage end the connection, other PDUs change nothing |
| `LoginLaws.ScanKeysDecides` | usr/iscsi/iscsid.c:209-252 | no authentication, or CHAP, is agreed exactly when it is offered anywhere and fits the target |
| `LoginLaws.PlainLoginSucceeds` | usr/iscsi/iscsid.c:665-831 | a login without accounts: security, any number of operational rounds, full feature phase, for normal and discovery sessions |
| `LoginLaws.ShortLoginSucceeds` | usr/iscsi/iscsid.c:777-800 | the same in one PDU when nothing is to be negotiated |
| `LoginLaws.OperationalLoginSucceeds` | usr/iscsi/iscsid.c:733-764 | the same for an initiator that starts in the operational stage |
| `LoginLaws.ChapLoginSucceeds` | usr/iscsi/chap.c:333-641 | a login with accounts: CHAP, any number of operational rounds, full feature phase |
| `LoginConnection.Connection.ScanSecurity` | usr/iscsi/iscsid.c:209-252 | the loops over keys and offers refine Scan |
| `LoginConnection.Connection.IssueChallenge` | usr/iscsi/chap.c:333-384 | refines CreateChallenge |
| `LoginConnection.Connection.Receive` | usr/iscsi/iscsid.c:996-1014 | a PDU and the end of its reply refine Serve |
| `LoginConnection.Connection.Session` | usr/iscsi/iscsid.c:665-1014 | the connection object through every sequence of login PDUs: the states and replies of the specification, no earlier stage again, and full feature phase with a target that has accounts only after a matching response |
| `TextKeys.Output.KeyAdd` | usr/iscsi/iscsid.c:159-197 | appends the entry, or drops it when a login response has no room |
| `TextKeys.Output.AddAll` | usr/iscsi/iscsid.c:159-197 | entries that fit are all there, in order |
| `TextKeys.RoundTrip` | usr/iscsi/iscsid.c:132-197 | what was printed is parsed back if and only if no key has an '=' and no value a NUL |
| `TextKeys.KeyFind` | usr/iscsi/iscsid.c:102-130 | the value of the first entry with the key, or none |
| `TextKeys.FirstMeans` | usr/iscsi/iscsid.c:102-130 | it is the value at the least index whose key matches, and none exactly when no key does |
| `TextKeys.TailIgnored` | usr/iscsi/iscsid.c:132-157 | an incomplete entry at the end is ignored and spoils none before it |
| `TextKeys.TakeKey` | usr/iscsi/iscsid.c:132-157 | the next entry, although the buffer is overwritten at its '=' |
| `TextKeys.TakeAll` | usr/iscsi/iscsid.c:209-219 | the scanning loop yields every entry of the original buffer |
| `TextResponse.Exchange.ExecText` | usr/iscsi/iscsid.c:899-947 | refines Exec |
| `TextResponse.ChainDelivers` | usr/iscsi/iscsid.c:899-947 | a request and its continuations deliver the whole response in full fragments but for the last, Final on exactly that, one non-reserved tag on the others |
| `TextResponse.NewRequestReplaces` | usr/iscsi/iscsid.c:905-947 | a new request ends the response before it, whose tag is refused from then on |
| `TextResponse.WrongTagsHarmless` | usr/iscsi/iscsid.c:924-927 | over every sequence of continuations, those with another tag are refused and the others get the fragments that they would have got without them; after the end all are refused |
| `TextResponse.DeliveredDespiteNoise` | usr/iscsi/iscsid.c:899-947 | so a long response is delivered whole, whatever wrong tags come between |
| `ChapCodec.EncodeHex` | usr/iscsi/chap.c:168-176 | computes the hex text |
| `ChapCodec.HexTextMeans` | usr/iscsi/chap.c:168-176 | which denotes the big-endian value of the bytes |
| `ChapCodec.HexAlphabet` | usr/iscsi/chap.c:59-70 | the sixteen digits, in either case |
| `ChapCodec.DecodeHex` | usr/iscsi/chap.c:72-88 | the backwards loop stores the number that the text denotes, right-aligned and zero-filled, for odd numbers of digits too |
| `ChapCodec.HexMeans` | usr/iscsi/chap.c:59-88 | the decoded bytes have the value of the text, which always fits |
| `ChapCodec.EncodeBase64` | usr/iscsi/chap.c:179-223 | the loop and its two tails compute Base64 |
| `ChapCodec.AlphabetInOrder` | usr/iscsi/chap.c:92-110 | the digits 0 to 63 are A-Z, a-z, 0-9, + and /, in that order |
| `ChapCodec.AlphabetIsAll` | usr/iscsi/chap.c:92-110 | no other character is a digit |
| `ChapCodec.QuadMeans` | usr/iscsi/chap.c:179-223 | four letters denote the number of the three bytes |
| `ChapCodec.GroupMeans` | usr/iscsi/chap.c:112-166 | the bytes decoded from a group denote its number, less the fill bits of a padded one |
| `ChapCodec.WellFormedIff` | usr/iscsi/chap.c:112-166 | the texts decoded are exactly whole groups of letters with at most two pads at the end |
| `ChapCodec.DecodeBase64` | usr/iscsi/chap.c:92-166 | the bytes of a well-formed text go to the front of the buffer and nothing else changes |
| `ChapCodec.Base64RoundTrip` | usr/iscsi/chap.c:92-223 | base64 decoding undoes encoding for every non-empty byte string |
| `ChapCodec.DecodedLengthExact` | usr/iscsi/chap.c:244-273 | the length computed from the pads is the number of bytes decoded |
| `ChapCodec.RoundTrip` | usr/iscsi/chap.c:225-309 | both formats: recognised, allocated with exactly the original length, decoded to the original bytes |
| `SignalMode.TakeKeepsInv` | usr/bs.c:189-256 | every step of every interleaving keeps a finished command announced, completion order that of finishing, and every command accounted for |
| `SignalMode.EveryRun` | usr/bs.c:189-256 | in every run; and when only a new submission is possible, all submitted commands have completed |
| `SignalMode.OneStage` | usr/bs.c:189-256 | a submitted command is in exactly one stage, so it completes at most once |
| `SignalMode.MeasureFalls` | usr/bs.c:189-256 | without new submissions only finitely many steps are possible |
| `NotifyMode.TakeKeepsInv` | usr/bs.c:109-187 | every step keeps exactly one token among pipes, ack thread and main loop, finished order, and every command accounted for |
| `NotifyMode.AckListOwned` | usr/bs.c:109-187 | the list between the threads is touched only by the token's owner, and the two are never both in |
| `NotifyMode.EveryRun` | usr/bs.c:109-187 | in every run; and when only a new submission is possible, all submitted commands have completed |
| `NotifyMode.QuietMeansDone` | usr/bs.c:109-187 | then in the order in which they finished |
| `NotifyMode.MeasureFalls` | usr/bs.c:109-187 | without new submissions only finitely many steps are possible |
| `WorkerPool.PoolStaysAwake` | usr/bs.c:205-256 | a command waits in the pending list only while a worker is up or a signal is due, although the signal is sent outside the lock |
| `WorkerPool.TakesOldest` | usr/bs.c:219-256 | in both modes and every run a worker takes the command submitted first among those pending |
| `AioBatch.RunKeepsInv` | usr/bs_aio.c:119-241 | over every run, with any answers of the kernel: nwaiting is the list's length, npending at most iodepth, a device listed once exactly when it has commands waiting, and commands reach the kernel once each in arrival order |
| `AioBatch.NextKeepsInv` | usr/bs_aio.c:119-241 | every single event keeps that |
| `AioBatch.LastSubmitsAll` | usr/bs_aio.c:185-241 | after the last command of a batch a willing kernel has all that the depths allow, on every device |
| `AioBatch.RefillSaturates` | usr/bs_aio.c:271-317 | after completions a willing kernel again has all that the depth allows |
| `AioBatch.NothingHeldBack` | usr/bs_aio.c:185-317 | over every run with a willing kernel commands wait only while they would not fill the depth, or because it is full |
| `AioBatcher.Batcher.SubmitDevBatch` | usr/bs_aio.c:119-183 | refines BatchDev: commands not taken go back to the head of the list in order |
| `AioBatcher.Batcher.SubmitAllDevs` | usr/bs_aio.c:185-197 | refines BatchAll although devices leave the list during the walk |
| `AioBatcher.Batcher.Submit` | usr/bs_aio.c:199-241 | refines CmdSubmit |
| `AioBatcher.Batcher.GetCompletions` | usr/bs_aio.c:271-317 | in whatever portions the events are read, the result is all their completions followed by Refill |
| `Sheepdog.OidParts` | usr/bs_sheepdog.c:297-326 | an object id determines its disk and its index |
| `Sheepdog.WrotePiece` | usr/bs_sheepdog.c:962-1027 | writing one piece, in place or by copy, extends the part of the image written by exactly that piece |
| `Sheepdog.WroteImage` | usr/bs_sheepdog.c:918-1074 | the image after a disk write is the flat image with the bytes written at the offset |
| `Sheepdog.OtherImagesKept` | usr/bs_sheepdog.c:975-990 | every disk or snapshot whose table does not name this disk keeps its image |
| `SheepdogIo.Access.WritePiece` | usr/bs_sheepdog.c:967-1027 | create, copy-on-write or plain write, and the cached owner |
| `SheepdogIo.Access.UpdateInode` | usr/bs_sheepdog.c:860-895 | the servers' table entries between the marks become the cached ones |
| `SheepdogIo.Access.Write` | usr/bs_sheepdog.c:918-1074 | a write of any length changes exactly its bytes of the flat image, no object of another disk, and leaves the servers' table equal to the cached one |
| `SheepdogIo.Access.Read` | usr/bs_sheepdog.c:1029-1065 | the pieces of a read cover its range without gap or overlap, and the buffer is what they leave |
| `SheepdogRead.ReadRightIff` | usr/bs_sheepdog.c:1029-1065 | a read returns the image for every initial buffer if and only if every object of the range after the first was written |
| `SheepdogRead.GapExample` | usr/bs_sheepdog.c:1029-1036 | a read that does not |
| `Inflight.EveryRun` | usr/bs_sheepdog.c:1295-1328 | in every run requests that share an object are never served together, and when only a new arrival is possible none is left |
| `Inflight.NoSharedObject` | usr/bs_sheepdog.c:1295-1318 | over objects: in every run two requests served together have none in common |
| `Inflight.LookDecides` | usr/bs_sheepdog.c:1295-1318 | a request is served at once exactly when none of its objects is asked for by one that runs |
| `Inflight.MeasureFalls` | usr/bs_sheepdog.c:1295-1328 | every step lowers a measure, except that an arrival adds at most four to it and a spurious wake-up one |
| `Inflight.RunsComeToRest` | usr/bs_sheepdog.c:1295-1328 | so in every run the requests' own steps number at most four per arrival and one per spurious wake-up |
| `Inflight.TakeKeepsInv` | usr/bs_sheepdog.c:1295-1328 | every step keeps the exclusion, and loses no request |
| `Inflight.WakesRightIff` | usr/bs_sheepdog.c:1320-1328 | after a release and its wake-up every sleeper still has a reason to sleep if and only if every other sleeper shares an object with a request that still runs |
| `Inflight.AnyWakeRightIff` | usr/bs_sheepdog.c:1320-1328 | whichever sleeper is woken, if and only if that is so of all sleepers but any one |
| `Inflight.SignalCanMiss` | usr/bs_sheepdog.c:1320-1328 | a run from the start after which a request sleeps on although nothing that runs shares an object with it |

## Left out

- File and network I/O errors, allocation failures and clocks: file reads and writes, servers and the kernel succeed
  or answer as given by a parameter.
- Tape: residual counts in sense data, LOCATE, ERASE, mode pages and the contents of the medium auxiliary memory; runs
  whose offsets would exceed 64 bits (`TapeDrive.RunFits`).
- Reservations: REGISTER AND MOVE, ALL_TG_PT, and the unit attentions that the actions raise.
- Task set: aborts and task management functions, which leave the accounting of a queued command undone.
- Lifetimes: forced removal of LUN 0 and of whole targets, targets that are offline, and the unit attention lists of
  the records. `TargetLists` keeps a unit and its queue in one record and works on a copy of the queue.
- Data-In and Data-Out: RDMA transports, residual counts, extended command descriptor blocks, and lengths of 2^31 or
  more, which the code keeps in an int. The initiator of Data-Out is a conforming one: non-empty PDUs in order, Final
  exactly at the end of each burst.
- Login: what the names, access lists, redirection and session look-up decide is a parameter of the PDU, and so are
  the results of the parameter negotiation; MD5 and SHA-1 are one uninterpreted digest function.
- ChapCodec.DecodeBase64: of text with characters outside the alphabet the bytes stored are a parameter.
- I/O threads: one backing store's workers; several share the finished list in the same way. Pipe and signalfd errors.
- Asynchronous I/O: hard errors of io_submit.
- SheepdogIo.Access.Write: does not model reloading the inode after a snapshot or an invalidation, nor a failing server.
- Management interface, other device types (MMC, SMC, OSD), other backing stores (rbd, glfs, sg), iSNS, iSER: they
  would add only tables and per-branch responses.
