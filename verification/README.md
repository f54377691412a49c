# Verified model of the stateful core

These modules model, in Dafny, the parts of the EPICS device and driver support whose correctness
depends on more than one function at a time, and prove what callers rely on. `dafny verify
dfyconfig.toml` checks everything.

- **Asynchronous processing of generic variables** (`AsyncGenVar`, `AsyncGenVarSafety`,
  `AsyncGenVarProgress`, `AsyncGenVarCircle`, `AsyncGenVarAlone`, `GenVar`, `GenVarLocking`). Any
  number of records in one lock set, linked by forward links, each with a variable, a mutex and an event of its own; any number of scan threads; the documented
  low-level loop for each variable. Scan threads lock the lock set and then a variable, low-level
  threads the other way round. Every lock operation, test and assignment is a step of its own. The
  sequential code of the put, get and bo/mbbo routines is modelled by the class methods of `GenVar`.
- **Bit fields in shared registers** (`BusAccess`, `BusMemory`, `BusRegister`,
  `BusFields`, `BusLocking`, `BusWrite`, `BusOverlap`). The
  access methods down to the bytes on hosts of both byte orders, the locked read-modify-write of bo
  and mbbo records, and an interleaving of any number of them with readers which take no lock.
- **Hand-over of the DMA channel** (`DmaChannel`, `DmaScenarios`, `DmaProgress`): an event used as a lock which a
  thread takes and the interrupt routine gives back, and waiting for completion on top of it.
- **Saving and restoring arrays** (`SaveRestore`, `SaveQueue`): the write and read loops over a file
  system which does any part of what it is asked, padding, and the queue to the writer thread, which
  dumps buffers while they change.
- **Links to bus registers** (`LinkSyntax`, `LinkNumbers`, `DeviceRegistry`, `LinkInit`,
  `LinkAddress`): splitting in place, numbers in any spelling, canonical device names, concurrent
  find/create/find, addresses and instances.

Cases in which the code does not do what one would expect, each with the exact condition or with a
run which leads there:

- While an output record is initialised, the event of its variable is hidden. A low-level thread
  which begins to wait in that window does not block; it consumes a value nobody has written and
  `devGenVarProcComplete` returns -1 (`AsyncGenVarSafety.WindowOpens`, `AsyncGenVarSafety.BlindWaitFails`).
  Runs in which no wait begins on a hidden event are called careful below; threads which begin to wait
  only after initialisation keep all runs careful (`AsyncGenVarSafety.PatientIsCareful`). Deadlock
  freedom and the coupling of `rec_p` with PACT do not depend on it. In the model such a wait returns
  at once, as `devGenVarWait` does; the documented loop passes the null event to `epicsEventWait`
  itself.
- Forward links which form a circle of different asynchronous records keep processing it for ever once
  one of its records has been scanned (`AsyncGenVarCircle.ScanStartsCircle`,
  `AsyncGenVarCircle.CircleNeverRests`); without such a circle every run ends
  (`AsyncGenVarProgress.EveryRunCompletes`). One of the two is always the case
  (`AsyncGenVarCircle.RankOrCircle`). A link from a record to itself is harmless.
- Two devices which cover the same byte have two mutexes, and updates are lost
  (`BusOverlap.SeparationIsNeeded`).
- `write_bo` and `write_mbbo` stop only if the read routine returns a negative status; after a positive
  one they merge into a value which may be unset. The register is right afterwards if and only if that
  value agrees with it outside the mask (`BusRegister.SpoiledExactly`), and values which spoil it exist
  if and only if the mask leaves a bit of the register uncovered (`BusRegister.SpoilerExists`).
- The DMA mode is cached for each identifier although there is one channel
  (`DmaChannel.ModeExactly`, `DmaScenarios.ModeOfSomebodyElse`).
- `waiting` stays set after a failed setup or start until a transfer of the same identifier has ended
  (`DmaScenarios.FailingSetup`, `DmaScenarios.FailingStart`, `DmaScenarios.WaitingStays`), and a waiting call does not check that nothing of the
  same identifier is in flight. Two rules on the use of an identifier make waiting sound
  (`DmaChannel.WaitIsSound`), and breaking either always allows a wait to return before its own
  transfer has ended (`DmaScenarios.EveryBreachIsUnsound`).
- A dump which cannot open its file removes the old one all the same; it survives if and only if the
  removal fails, too (`SaveRestore.Dump`, `SaveQueue.FailedOpenRemoves`).
- A link with an unknown access method is accepted; the record uses `be32`, and its scan list is never
  assigned, so that the field keeps whatever the memory held (`LinkAddress.UnknownMethodIsAccepted`). A
  method name may be followed by anything but an `s` (`LinkInit.NamesExactly`).
- A link whose base and instance are at address 0 is refused even if an offset is given
  (`LinkAddress.ResolvesExactly`).
- The canonical name of a number fits its buffer exactly for numbers below 2^48
  (`LinkNumbers.NameFits`), and an application which registers a device under such a name redirects
  links which give the number (`DeviceRegistry.AliasedNumber`).

## Model

| member | source | states |
|---|---|---|
| `AsyncGenVar.StepKeepsInv` | devGenVar/devGenVarApp/src/devGenVar.c:99-318 | every step of every thread keeps the coupling of `rec_p`, PACT, event, mutex depths and lock-set lock; in careful runs also that of the histories and results |
| `AsyncGenVar.LowLevelKeepsInv` | devGenVar/devGenVarApp/src/devGenVar.c:99-123 | so does every step of the low-level loop and of `devGenVarProcComplete` with its nested locks, the careful part unless a wait begins on a hidden event |
| `AsyncGenVar.WalkKeepsInv` | devGenVar/devGenVarApp/src/devGenVar.c:256-318 | so does every step of phase 1 of any record, run by a scan thread or through a forward link of another record's phase 2 |
| `AsyncGenVar.InitKeepsInv` | devGenVar/devGenVarApp/src/devGenVar.c:477-486 | so does every step of the read-back which hides the event |
| `AsyncGenVar.ReachableInv` | devGenVar/devGenVarApp/src/devGenVar.c:99-318 | hence the first part holds in every state of every run, and both in every state of every careful run |
| `AsyncGenVarSafety.ExactlyOnce` | devGenVar/README:284-296 | in careful runs the values written by phase 1 are the values consumed, in order, plus at most the one in the variable |
| `AsyncGenVarSafety.NeverRefused` | devGenVar/devGenVarApp/src/devGenVar.c:274-283 | in every run the conflict branch is never taken |
| `AsyncGenVarSafety.NeverFails` | devGenVar/devGenVarApp/src/devGenVar.c:104-122 | in careful runs `devGenVarProcComplete` returned 0 every time |
| `AsyncGenVarSafety.FreeMutex` | devGenVar/devGenVarApp/src/devGenVar.c:107-120 | in every run, whenever the mutex is free, `rec_p` is set iff PACT is, and then the event is full or the low-level thread is past its wait |
| `AsyncGenVarSafety.NoSpuriousWakeUp` | devGenVar/devGenVarApp/src/devGenVar.c:107-120 | in careful runs, whenever the mutex is free, PACT is set iff a value is pending iff exactly one of these holds: the event is full, the low-level thread is past its wait |
| `AsyncGenVarSafety.LockOrder` | devGenVar/devGenVarApp/src/devGenVar.c:107-113 | in every run a low-level thread about to lock the lock set has PACT set, and nobody who holds the lock set wants its mutex then |
| `AsyncGenVarSafety.WaitLowersRank` | devGenVar/devGenVarApp/src/devGenVar.c:107-113 | whoever waits for a lock is ranked above its owner |
| `AsyncGenVarSafety.NoCircularWait` | devGenVar/devGenVarApp/src/devGenVar.c:99-123 | in every run chains of waiting threads are never circular and have at most three members, for any number of threads and records |
| `AsyncGenVarSafety.OwnerGoesOn` | devGenVar/devGenVarApp/src/devGenVar.c:256-318 | in every run the owner of a lock somebody waits for is enabled unless it waits for a third thread |
| `AsyncGenVarSafety.RestIsComplete` | devGenVar/devGenVarApp/src/devGenVar.c:99-123 | in every run, if nobody can go on except by starting a scan, every record has completed and every lock is free: no lost wake-up, no deadlock |
| `AsyncGenVarSafety.RestIsConsumed` | devGenVar/README:284-296 | and in careful runs everything written has been consumed |
| `AsyncGenVarProgress.EveryStepCounts` | devGenVar/devGenVarApp/src/devGenVar.c:99-318 | every step but the start of a scan lowers a measure of the work left, if records can be ranked so that forward links lead downwards or back to the record itself |
| `AsyncGenVarProgress.EveryRunEnds` | devGenVar/devGenVarApp/src/devGenVar.c:99-318 | under this condition every run without new scans has at most as many steps as there was work left, whatever the schedule |
| `AsyncGenVarProgress.EveryRunCompletes` | devGenVar/devGenVarApp/src/devGenVar.c:99-123 | and where it cannot go on every record has completed and every lock is free |
| `AsyncGenVarCircle.RankOrCircle` | devGenVar/devGenVarApp/src/devGenVar.c:109-113 | either there is such a rank, or some records form a circle of links to other ones |
| `AsyncGenVarCircle.NotBoth` | devGenVar/devGenVarApp/src/devGenVar.c:109-113 | never both |
| `AsyncGenVarCircle.ScanStartsCircle` | devGenVar/devGenVarApp/src/devGenVar.c:280-283 | from every start without read-backs, a scan of a record of the circle leads to PACT being set |
| `AsyncGenVarCircle.StepKeepsCircle` | devGenVar/devGenVarApp/src/devGenVar.c:107-115 | every step keeps some record of the circle in process: before phase 2 of one ends, the next one has PACT set |
| `AsyncGenVarCircle.CircleNeverRests` | devGenVar/devGenVarApp/src/devGenVar.c:99-318 | so no run ever comes to rest again |
| `AsyncGenVarCircle.CircleGoesOn` | devGenVar/devGenVarApp/src/devGenVar.c:99-318 | and runs of any length go on without a new scan |
| `AsyncGenVarSafety.BlindWaitFails` | devGenVar/devGenVarApp/src/devGenVar.c:477-486 | from every state in which a wait begins on a hidden event a run leads to an unwritten value being consumed and to -1 |
| `AsyncGenVarSafety.WindowOpens` | devGenVar/devGenVarApp/src/devGenVar.c:477-482 | such a state is reached from every start in which a record is going to be read back |
| `AsyncGenVarSafety.PatientIsCareful` | devGenVar/devGenVarApp/src/devGenVar.c:477-486 | a run whose low-level threads begin to wait only after initialisation is careful |
| `AsyncGenVarAlone.ScanAlone` | devGenVar/devGenVarApp/src/devGenVar.c:256-299 | the whole effect of a scan of any records which nothing interferes with: each which was not in process is written once, has PACT set and its event full, and nothing else has changed |
| `AsyncGenVarAlone.WakeUpAlone` | devGenVar/devGenVarApp/src/devGenVar.c:99-123 | the whole effect of a wake-up: the value is consumed once, the record completes, 0 is returned, and each record of its forward link which was not in process is written once |
| `GenVar.Variable.ProcComplete` | devGenVar/devGenVarApp/src/devGenVar.c:99-123 | -1 without a record; else the record gets time and severity, loses PACT, keeps RVAL, and the variable keeps its value and gives up the record |
| `GenVar.OutRecord.Phase2` | devGenVar/devGenVarApp/src/devGenVar.c:125-138 | acts exactly if PACT is set, then hands over time stamp and severity |
| `GenVar.OutRecord.Readback` | devGenVar/devGenVarApp/src/devGenVar.c:209-235 | RVAL becomes the value of the variable, or stays; a failing conversion alarms record and variable |
| `GenVar.OutRecord.PutNolock` | devGenVar/devGenVarApp/src/devGenVar.c:256-299 | the whole new state for unconvertible type, phase 2, conflict and phase 1, with and without a failing conversion |
| `GenVar.OutRecord.GetNolock` | devGenVar/devGenVarApp/src/devGenVar.c:173-207 | RVAL, UDF, time, severity, event and result after a read, with and without a failing conversion |
| `GenVar.OutRecord.ReadBackAtInit` | devGenVar/devGenVarApp/src/devGenVar.c:477-489 | the read-back neither posts nor loses the event, and makes the severities it raises current |
| `GenVar.OutRecord.WriteBo` | devGenVar/devGenVarApp/src/devGenVar.c:787-822 | phase 1 is one masked write of the old RVAL to the bytes of the variable, of any width and signedness, and RVAL takes over the other bits; phase 2 changes neither variable nor RVAL; a refused write changes no byte; alarms in each case |
| `GenVar.OutRecord.WriteMbbo` | devGenVar/devGenVarApp/src/devGenVar.c:880-914 | likewise, and RBV is the value before the write |
| `GenVar.OutRecord.Process` | devGenVar/devGenVarApp/src/devGenVar.c:109-113 | processing a record with PACT set ends with PACT clear and the variable untouched; otherwise it is one masked write, or none, and PACT stays set iff phase 1 was started |
| `GenVar.MergedVariable` | devGenVar/devGenVarApp/src/devGenVar.c:802-815 | reading back, merging under the mask and converting is a masked write in the sense of `BusMemory` |
| `GenVarLocking.SameSteps` | devGenVar/devGenVarApp/src/devGenVar.c:221-221 | reading back and putting are fetch and store of a register whose device is the variable |
| `GenVarLocking.StoreIsWriteBo` | devGenVar/devGenVarApp/src/devGenVar.c:794-819 | however records and low-level code interleave under the mutex, each store changes the variable as `WriteBo` says |
| `GenVarLocking.VariableLastWriter` | devGenVar/devGenVarApp/src/devGenVar.c:794-819 | and each bit of the variable is what the last write covering it, of a record or of low-level code, put there |
| `GenVar.WholeVariable` | devGenVar/devGenVarApp/src/devGenVar.c:285-285 | converting RVAL alone is a masked write with all bits in the mask |
| `GenVar.WorstAlarmStays` | devGenVar/devGenVarApp/src/devGenVar.c:192-195 | of alarms raised one after the other the first of the greatest severity stays, if it is greater than what was pending |
| `BusMemory.ReplayIsLastWriter` | devBusMapped/devMbboBus.c:119-134 | replaying a history of masked writes leaves in each bit what the last write covering it has for it |
| `BusMemory.DisjointWritesCommute` | devBusMapped/devBoBus.c:92-104 | histories of the same pairwise disjoint writes to memory, in any order, give the same memory |
| `BusFields.MasksDisjoint` | devBusMapped/devMbboBus.c:127-131 | masks without a common bit make writes to one register disjoint, through any method and on any host |
| `BusFields.FieldWritesCommute` | devBusMapped/devBoBus.c:92-104 | records with pairwise disjoint masks on one register can write in any order and any number of times |
| `BusFields.FieldSurvives` | devBusMapped/devMbbiBus.c:76-87 | a masked read returns the field last written, after any writes under other masks |
| `BusMemory.Untouched` | devBusMapped/devMbboBus.c:127-131 | bits no write covers keep their value |
| `BusMemory.AllFieldsStay` | devBusMapped/devMbboBus.c:127-131 | all bytes of a written field keep it until a write touches it |
| `BusAccess.EncodeLanes` | miscUtils/src/basicIoOps.h:265-329 | each `out` method stores the bytes of the value in the order its name says |
| `BusAccess.DecodeBytes` | miscUtils/src/basicIoOps.h:190-262 | each byte of the value each `in` method reads: below the width a byte of the register, in the order the name says; above it 0, or 0xff if the method is signed and the top bit of the register is set |
| `BusAccess.HostIndependent` | miscUtils/src/basicIoOps.h:190-331 | `be` and `le` methods store and read the same on hosts of either byte order |
| `BusAccess.ReadBackBytes` | devBusMapped/devBusMapped.c:27-73 | each byte of what is read after a write, for all 13 methods: the byte written, and above the width 0 or copies of the sign |
| `BusAccess.EncodeDecode` | devBusMapped/devBusMapped.c:27-73 | writing back what was read leaves every byte as it was |
| `BusAccess.MaskedWriteBytes` | devBusMapped/devMbboBus.c:121-131 | read, merge and write through any method change exactly the bits of the mask, byte by byte |
| `BusAccess.SignedTwin` | devBusMapped/devBusMapped.c:75-87 | read-modify-write through a sign-extending method stores the same bytes as through the unsigned one |
| `BusAccess.RtemsAgrees` | miscUtils/src/basicIoOps.h:36-54 | the variant of the header for big-endian RTEMS targets agrees with the portable one |
| `BusRegister.ReadModifyWrite` | devBusMapped/devMbboBus.c:121-131 | read, merge and store together are one masked write to memory |
| `BusRegister.PlainWrite` | devBusMapped/devBoBus.c:98-101 | a store without mask is a masked write with all bits |
| `BusRegister.FieldReadsBack` | devBusMapped/devMbbiBus.c:76-87 | the same after any history of writes anywhere which do not touch the bits of the field |
| `BusRegister.SpoiledExactly` | devBusMapped/devBoBus.c:94-101 | merging into some other value than the register's stores the right bytes iff that value agrees with the register outside the mask |
| `BusRegister.SpoilerExists` | devBusMapped/devMbboBus.c:121-131 | a value which makes the merge store wrong bytes exists iff the mask leaves a bit of the register uncovered |
| `BusRegister.FieldMaskBit` | devBusMapped/devMbbiBus.c:71-72 | bit k of the mask after initialisation is bit k - SHFT of MASK, or set if NOBT is 0; bits below SHFT are clear |
| `BusRegister.WrittenBit` | devBusMapped/devMbboBus.c:121-131 | a masked write puts the bits of the value under the mask into the register, as it reads afterwards, and keeps the other ones |
| `BusRegister.FieldBits` | devBusMapped/devMbboBus.c:88-90 | with MASK 2^NOBT - 1, writing after initialisation replaces exactly the bits SHFT, ..., SHFT + NOBT - 1 which the register has, and reading returns exactly those |
| `BusRegister.Bus.Put` | devBusMapped/devBusMapped.c:57-73 | a predefined method stores the bytes of the value and nothing else |
| `BusRegister.Record.PutVal` | devBusMapped/devBusMapped.c:255-262 | stores or reports an error, and raises an alarm exactly in that case |
| `BusRegister.Record.GetVal` | devBusMapped/devBusMapped.c:246-253 | returns the register if the access succeeded, and raises an alarm exactly if it did not |
| `BusRegister.Record.WriteBo` | devBusMapped/devBoBus.c:86-106 | one masked write; none after a negative read status or a failing write; after a positive read status some value is merged, which is the masked write for sure if the mask covers the register |
| `BusRegister.Record.WriteMbbo` | devBusMapped/devMbboBus.c:110-137 | likewise, with RBV the value read; after a positive read status it is the masked write iff RBV agrees with the register outside the mask |
| `BusRegister.Record.ReadMbbi` | devBusMapped/devMbbiBus.c:76-87 | RVAL becomes the masked register exactly if the access succeeded |
| `BusRegister.Record.ShiftMask` | devBusMapped/devMbbiBus.c:71-72 | every bit of the mask after initialisation: MASK, or all bits if NOBT is 0, moved up by SHFT |
| `BusRegister.Record.InitMbbo` | devBusMapped/devMbboBus.c:85-107 | every bit of the mask, RBV, RVAL and result after initialisation; without PINI a severity which has been raised becomes current |
| `BusLocking.StepKeepsInv` | devBusMapped/devMbboBus.c:119-134 | every step keeps the mutexes, the data read and not yet written, the memory as replay of the stores, and the samples |
| `BusLocking.OtherRegister` | devBusMapped/devBusMapped.c:57-73 | a store leaves registers which do not overlap alone |
| `BusLocking.StoreIsEffect` | devBusMapped/devBoBus.c:93-101 | the store which ends a read-modify-write is its masked write |
| `BusLocking.LastWriteWins` | devBusMapped/devMbboBus.c:119-134 | in every interleaving each bit is what the last store covering it had for it, or initial |
| `BusLocking.ReadsSeeAPrefix` | devBusMapped/devMbbiBus.c:82-85 | every read without lock returned the register after some prefix of the stores |
| `BusWrite.WriteAlone` | devBusMapped/devMbboBus.c:119-134 | all steps of one write, from lock to unlock, are its one masked write, and nothing else has changed |
| `BusWrite.RefusedAlone` | devBusMapped/devMbboBus.c:121-123 | a write whose read fails leaves everything as it was and gives the mutex back |
| `BusWrite.StoresAreAskedFor` | devBusMapped/devMbboBus.c:127-131 | in every run each store is the effect of some write a record has begun |
| `BusWrite.ReadsAreFresh` | devBusMapped/devMbbiBus.c:82-85 | in every run each read returns one value of its register, and that has seen all stores made before |
| `BusOverlap.TwoDevicesLoseAnUpdate` | devBusMapped/devBusMapped.c:279-279 | whenever two threads reach a byte through two devices, a run loses an update of any given bit of it |
| `BusOverlap.SeparationIsNeeded` | devBusMapped/devMbboBus.c:116-119 | so the condition of `LastWriteWins`, that ranges of devices do not overlap, is exactly what devices in use need |
| `DmaChannel.StepKeepsInv` | drvRTEMSDma/src/drvRTEMSDmaSup.c:41-58 | every step of threads, hardware and interrupt routine keeps token, counts, modes and wake-ups; if calls are disciplined also the results |
| `DmaChannel.OneToken` | drvRTEMSDma/src/drvRTEMSDmaSup.c:157-185 | in every run the channel is in exactly one place: the event, one thread, the hardware or the interrupt routine |
| `DmaChannel.OneCallback` | drvRTEMSDma/src/drvRTEMSDmaSup.c:50-55 | in every run callbacks equal transfers started, less the one under way |
| `DmaChannel.WaitIsSound` | devEpicsDma/epicsDma.c:143-161 | in disciplined runs every waiting call returned after its own transfer had ended, with 0 iff the hardware reported 0 |
| `DmaChannel.WakeUpArrives` | devEpicsDma/epicsDma.c:72-83 | in every run a waiting thread has its event set or its transfer under way |
| `DmaChannel.ModeExactly` | drvRTEMSDma/src/drvRTEMSDmaSup.c:166-177 | in every run a transfer runs in the mode requested iff that differed from the cached mode or the channel was in it |
| `DmaScenarios.CallCompletes` | devEpicsDma/epicsDma.c:166-184 | a waiting call on a free channel can come back with the status of its transfer |
| `DmaProgress.EveryScheduleEnds` | devEpicsDma/epicsDma.c:143-184 | whatever the schedule, a run without new calls has at most as many steps as there was work left |
| `DmaProgress.NobodyIsStuck` | devEpicsDma/epicsDma.c:143-184 | and where nothing can go on without a new call, every call has returned and the channel is free |
| `DmaScenarios.FailingSetup` | drvRTEMSDma/src/drvRTEMSDmaSup.c:166-171 | a call whose setup fails gives the channel back; status is -1, mode and cache are as before, and `waiting` is set if the call was a waiting one |
| `DmaScenarios.FailingStart` | drvRTEMSDma/src/drvRTEMSDmaSup.c:174-184 | likewise after a failing start, but the new mode is set up and cached |
| `DmaScenarios.WhoWakes` | devEpicsDma/epicsDma.c:72-83 | only its waiting calls set `waiting` of an identifier and empty its event; only the interrupt routine, at the end of its transfer, clears `waiting` and fills the event |
| `DmaScenarios.WaitingStays` | devEpicsDma/epicsDma.c:155-158 | in every run what a failed call has left in `waiting` stays until a transfer of that identifier has ended |
| `DmaScenarios.ModeOfSomebodyElse` | drvRTEMSDma/src/drvRTEMSDmaSup.c:166-173 | a run in which a transfer runs in another identifier's mode |
| `DmaScenarios.EveryBreachIsUnsound` | devEpicsDma/epicsDma.c:155-160 | after any disciplined run, every call which breaks the discipline begins a run in which a wait ends early: the discipline is exact |
| `DmaScenarios.PlainAfterFailure` | devEpicsDma/epicsDma.c:155-160 | the case of a plain call with `waiting` left over from a failed waiting one |
| `DmaScenarios.WaitDuringTransfer` | devEpicsDma/epicsDma.c:155-160 | the case of a waiting call while an own plain transfer has not yet called back |
| `DmaScenarios.StaleEvent` | devEpicsDma/epicsDma.c:77-80 | such a run exists from the start |
| `DmaScenarios.SoleUserGetsItsMode` | drvRTEMSDma/src/drvRTEMSDmaSup.c:166-177 | in every run a single identifier gets the mode it requests, if not 0, whatever calls failed before |
| `SaveRestore.Dump` | miscUtils/src/savres.c:62-107 | 0, exactly if no call reports an error and all is written, means the file is the buffer; after a failure it is removed; if that failed, too, it is as before or, if it could be opened, a beginning of the buffer |
| `SaveRestore.Restore` | miscUtils/src/savres.c:109-146 | exactly if no call reports an error it returns min(n, file length), with that much of the file in the buffer and the rest untouched |
| `SaveRestore.Aao.InitHelper` | miscUtils/src/savres.c:255-293 | the instance's part of a shared array or a fresh buffer, cleared, nothing else touched, and the original size; or -1 and no buffer, with PACT set if memory was short |
| `SaveRestore.Aao.RestoreFrom` | miscUtils/src/savres.c:213-229 | restores up to NELM elements; iff there were any, UDF is cleared and pending alarms become current |
| `SaveRestore.RestoreBeside` | miscUtils/src/savres.c:273-274 | restoring one instance of a shared array leaves the data of another alone |
| `SaveRestore.PadBeside` | miscUtils/src/savres.c:317-328 | so does padding it |
| `SaveRestore.Aao.WritePad` | miscUtils/src/savres.c:317-328 | the array is padded with zeroes to its original size, nothing beyond is touched |
| `SaveRestore.SaveAndRestart` | miscUtils/src/savres.c:296-340 | pad, dump, restart with any size and restore give the old array cut or padded to the new size |
| `SaveQueue.StepKeepsInv` | miscUtils/src/savres.c:169-211 | every step of clients and writer keeps each record's way to its file |
| `SaveQueue.FileOnItsWay` | miscUtils/src/savres.c:74-83 | always: file equals buffer, or written and not queued, or queued, or about to be dumped, or dumped with an agreeing prefix |
| `SaveQueue.DrainedIsSaved` | miscUtils/src/savres.c:169-189 | when all has drained, the file of a written record whose last dump did not fail equals its buffer |
| `SaveQueue.EveryStepCounts` | miscUtils/src/savres.c:74-83 | every step but a client's brings the system nearer to rest |
| `SaveQueue.Drains` | miscUtils/src/savres.c:197-211 | from every state the system alone can drain, and without failures every file then equals its buffer |
| `SaveQueue.UpdateIsSaved` | miscUtils/src/savres.c:317-340 | in every run: when all has drained after the last update of a record, and its last dump has not failed, the file has the bytes the client wrote and zeroes behind them; and without a failing dump since the update the last one has not failed |
| `SaveQueue.UpdateCanBeSaved` | miscUtils/src/savres.c:197-211 | such a run exists for every update in a state without failures |
| `SaveQueue.NobodyOvertakes` | miscUtils/src/savres.c:175-175 | in every run a queued record moves ahead by one place with each record the writer takes |
| `SaveQueue.ServedInOrder` | miscUtils/src/savres.c:175-179 | so the writer serves place k after k other records, with the length of that moment |
| `SaveQueue.FailedOpenRemoves` | miscUtils/src/savres.c:74-105 | after a failed opening, whatever clients do meanwhile, the old file is there iff its removal failed |
| `LinkSyntax.PrintSplit` | devBusMapped/devBusMapped.c:128-142 | every link is the print of the parts it is split into |
| `LinkSyntax.SplitPrint` | devBusMapped/devBusMapped.c:128-142 | parts printed to a link come back |
| `LinkSyntax.RoundTripExactly` | devBusMapped/devBusMapped.c:128-142 | the parts which come back are exactly those without misplaced separators |
| `LinkSyntax.PlainParts` | devBusMapped/README:59-59 | in particular all parts free of `+` and `,` |
| `LinkSyntax.StrChr` | devBusMapped/devBusMapped.c:131-139 | finds the first separator of the string at a pointer |
| `LinkSyntax.CutInPlace` | devBusMapped/devBusMapped.c:131-134 | one separator is overwritten; both halves are strings, what lies before is untouched |
| `LinkSyntax.SplitInPlace` | devBusMapped/devBusMapped.c:128-142 | the pointers into the buffer point at the parts of the link |
| `LinkNumbers.ValueDetermines` | devBusMapped/devBusMapped.c:153-154 | a numeral is determined by its value and base up to leading zeros |
| `LinkNumbers.NumberForm` | devBusMapped/devBusMapped.c:144-154 | every string taken for a number consists of blanks, a sign and a numeral |
| `LinkNumbers.Numerals` | devBusMapped/devBusMapped.c:144-154 | the numerals of C: prefix `0x` or `0X`, prefix `0`, or none, and digits of that base in either case of letters, are taken as a whole for the value of the digits |
| `LinkNumbers.SpellingExactly` | devBusMapped/devBusMapped.c:144-154 | of those, exactly the decimal, octal and hexadecimal numerals of n are taken for n, negated modulo the word size behind a minus sign; too large ones for the largest number |
| `LinkNumbers.AnySpelling` | devBusMapped/devBusMapped.c:153-154 | every spelling of a number is taken for it as a whole |
| `LinkNumbers.NameIsSpelling` | devBusMapped/devBusMapped.c:160-160 | the canonical name is itself a spelling of the number |
| `LinkNumbers.NamesDiffer` | devBusMapped/devBusMapped.c:160-160 | different numbers have different canonical names |
| `LinkNumbers.NameFits` | devBusMapped/devBusMapped.c:156-160 | the name fits its buffer iff the number is below 2^48 |
| `DeviceRegistry.StepKeepsInv` | devBusMapped/devBusMapped.c:268-296 | every step of concurrent look-ups and registrations keeps ownership of structs, loses none, and entries are never replaced |
| `DeviceRegistry.OneDevicePerName` | devBusMapped/devBusMapped.c:165-168 | all who get a device under a name get the same struct and mutex, different names give different ones, and none is released |
| `DeviceRegistry.NumbersMeet` | devBusMapped/devBusMapped.c:153-168 | two links with numeric bases get the same device and mutex iff the numbers are equal |
| `DeviceRegistry.LinkFailsOnlyWithoutMemory` | devBusMapped/devBusMapped.c:162-168 | a link loses the race only to find the winner's device |
| `DeviceRegistry.UserFailsOnTakenName` | devBusMapped/devBusMapped.c:283-287 | registration fails only on a taken name or without memory |
| `DeviceRegistry.BaseIsTheNumber` | devBusMapped/devBusMapped.c:166-166 | the device of a numeric base is at that address unless the application registered that name for another |
| `DeviceRegistry.UserGetsItsOwn` | devBusMapped/devBusMapped.c:271-287 | a registration which succeeds has made the device, with the caller's base, and no other one has succeeded with that name or device |
| `DeviceRegistry.NoLeak` | devBusMapped/devBusMapped.c:290-294 | when all calls have returned, each struct ever allocated is in the registry or has been released, never both |
| `DeviceRegistry.LinkFinds` | devBusMapped/devBusMapped.c:165-165 | the whole effect of a link whose device is there: nothing is allocated |
| `DeviceRegistry.CallMakes` | devBusMapped/devBusMapped.c:166-166 | of a link or registration whose name is free |
| `DeviceRegistry.CallRefused` | devBusMapped/devBusMapped.c:273-294 | of one which is refused the struct or its mutex |
| `DeviceRegistry.UserGivesUp` | devBusMapped/devBusMapped.c:284-294 | of a registration whose name is taken |
| `DeviceRegistry.NoCallWaits` | devBusMapped/devBusMapped.c:165-168 | each call ends after at most five own steps, whatever others do |
| `DeviceRegistry.AliasedNumber` | devBusMapped/devBusMapped.c:165-174 | any number can be redirected to any address by such a registration |
| `LinkInit.NamesExactly` | devBusMapped/devBusMapped.c:182-213 | which strings select which access method |
| `LinkInit.Dissect` | devBusMapped/devBusMapped.c:128-142 | the strings at the four pointers are the parts of the link |
| `LinkInit.Registry.Register` | devBusMapped/devBusMapped.c:268-296 | adds the device unless the name is taken or memory is short, and then changes nothing |
| `LinkInit.Pvt.FindOrCreate` | devBusMapped/devBusMapped.c:165-168 | the loop ends with what the registry holds for the name, added if it was missing |
| `LinkInit.Pvt.FindDevice` | devBusMapped/devBusMapped.c:153-171 | numbers are looked up by canonical name and added, names only looked up |
| `LinkInit.Pvt.SetAccess` | devBusMapped/devBusMapped.c:180-213 | registered methods come first, then predefined ones |
| `LinkInit.Pvt.Resolve` | devBusMapped/devBusMapped.c:144-240 | address, device, registry, method, scan list, PACT and result after each way through the routine for a VME link in parts |
| `LinkInit.Pvt.LinkInit` | devBusMapped/devBusMapped.c:89-241 | the same for constant, VME and other links |
| `LinkAddress.ResolvesExactly` | devBusMapped/devBusMapped.c:173-178 | a link resolves iff offset and device are good and neither sum is 0, and then to base + card * 2^signal + offset modulo the word size |
| `LinkAddress.FirstInstance` | devBusMapped/devBusMapped.c:173-176 | card 0 is at base plus offset, whatever the signal number |
| `LinkAddress.NoSpacing` | devBusMapped/devBusMapped.c:173-176 | with signal 0, card c is c bytes further on |
| `LinkAddress.NextInstance` | devBusMapped/devBusMapped.c:173-176 | card c + 1 is 2^signal beyond card c |
| `LinkAddress.NextSignal` | devBusMapped/devBusMapped.c:173-176 | one more in the signal number doubles the distance |
| `LinkAddress.NamedLinkResolves` | devBusMapped/devBusMapped.c:169-178 | a printed link with the name of a device resolves to base + card * 2^signal + offset of the device registered under that name, if any, and adds none |
| `LinkAddress.PrintedLinkResolves` | devBusMapped/README:69-69 | a link printed from numbers in any spelling resolves to base + card * 2^signal + offset |
| `LinkAddress.SpellingsMeet` | devBusMapped/devBusMapped.c:153-171 | two spellings of one base give one device, the second adds nothing |
| `LinkAddress.MethodExactly` | devBusMapped/devBusMapped.c:180-208 | which link selects which registered or predefined access method, both ways |
| `LinkAddress.KnownMethod` | devBusMapped/devBusMapped.c:214-240 | with a known method: method, scan list, PACT, failure and address in terms of registries and numbers |
| `LinkAddress.BadOffset` | devBusMapped/devBusMapped.c:144-151 | a link whose offset is no number fails with address 0, `be32` and PACT set, and its scan list is not assigned |
| `LinkAddress.ConstantAddress` | devBusMapped/devBusMapped.c:112-115 | a constant link is the number it begins with, modulo the word size |
| `LinkAddress.NoConstant` | devBusMapped/devBusMapped.c:116-122 | one which begins with no number is refused |
| `LinkAddress.UnknownExactly` | devBusMapped/devBusMapped.c:182-213 | a method name is unknown iff it is not registered and begins with no predefined name |
| `LinkAddress.UnknownMethodIsAccepted` | devBusMapped/devBusMapped.c:208-212 | with any unknown method name a link fails iff device, offset or address are bad; otherwise the record gets its address, `be32`, and no assignment to its scan list |
| `LinkAddress.SomeUnknownMethod` | devBusMapped/devBusMapped.c:184-208 | `be99` is such a name |
| `LinkAddress.InstancesApart` | devBusMapped/devBusMapped.c:173-176 | registers within the blocks of two instances do not overlap |
| `LinkAddress.OtherInstanceUnchanged` | devBusMapped/devMbboBus.c:121-131 | no history of writes to any registers of one instance changes what another one reads |
| `LinkAddress.BeyondTheBlock` | devBusMapped/devBusMapped.c:232-235 | an offset beyond the block of an instance is an address in the next one |
| `LinkAddress.BoundIsNeeded` | devBusMapped/devBusMapped.c:173-176 | every register which goes beyond its block, wherever it begins, overlaps one of another instance: the bound is exact |

## Left out

- EPICS base: conversion tables, hash tables, registry internals, scan lists and alarm posting. The registry is a finite map with atomic operations, alarms are the maximum of severities.
- Record support is the environment of `AsyncGenVar` as described in the header of the module.
- Access methods registered by the application beyond their selection by name and the status they return, hardware registers which change on their own, memory ordering, barriers and inline assembly.
- Several asynchronous records on one generic variable, variables without mutex or event, and mutexes shared between variables; devGenVar/README excludes the first.
- Races of lazy initialisation, spurious DMA interrupts, the constants of the board support package and the mapping of data widths to DMA modes.
- The `norest` option of the array records, the element size table (elements are 4-byte floats), and the remaining record types, which are plain reads and writes of a register.
- `malloc` failure, except in `devBusMappedRegister` and in the set-up of array records.
- GenVar.Variable.ProcComplete: models the nested locks of the routine as one uninterrupted call; the interleavings are in `AsyncGenVar`.
- GenVar.OutRecord.Readback: a conversion which fails leaves its target alone, as in `GenVar.OutRecord.PutNolock` and `GenVar.OutRecord.GetNolock`.
- BusRegister.Record.PutVal: an access routine which reports an error has stored nothing.
- DmaChannel.WaitIsSound: each identifier is used by one thread.
- SaveQueue.StepKeepsInv: an update, a padding and each `write` read or change the buffer in one step; a record padded while another thread dumps it is queued again anyway.
- SaveQueue.FileOnItsWay: says nothing about a record whose last dump failed, because the writer ignores errors.
- LinkInit.Pvt.LinkInit: runs without other threads; what they can do meanwhile is in `DeviceRegistry`. Card and signal numbers are taken as non-negative and their shift as representable, as the C expression demands.
