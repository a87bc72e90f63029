# Verified models of the Linux and sensor driver cores

A Dafny project that models the algorithms and state machines in this repository whose correctness
is not visible from one function, and proves what they are for. `dafny verify dfyconfig.toml` checks
all of it.

| file | what it models |
|---|---|
| `KernelList.dfy`, `HList.dfy` | the intrusive circular lists and the hash-bucket lists of the 4.11 `list.h`, as objects whose pointers are rewritten; each operation is tied to an operation on the sequence of entries |
| `I2cSpec.dfy`, `I2cRuns.dfy`, `I2cBus.dfy` | the interrupt-driven S3C2440 I2C master: one interrupt as a step, whole transfers against any slave, and the register-level handler that performs the step |
| `Bits.dfy`, `RingBuffer.dfy`, `RingSpsc.dfy` | the ring buffer with free-running 32-bit indices: as a FIFO, and shared by one writer and one reader without a lock |
| `SensorRate.dfy`, `Arbitration.dfy`, `ArbitrationRuns.dfy`, `ArbitrationLedger.dfy`, `SensorDriver.dfy` | how the requests of the clients of a sensor chip add up to programmed rates, over whole runs with deferred programming; a ledger of the requests kept from the events alone, and the objects of the driver that carry this out |
| `FifoParser.dfy` | the parser of interleaved accelerometer and gyroscope frames |
| `RamBlock.dfy` | the request loop of the RAM disk, and why an elevator may reorder its queue |
| `Sorting.dfy`, `MyLog.dfy`, `ButtonsAtomic.dfy` | three in-place sorts, the overwrite-oldest log ring, and exclusive open by an atomic counter |
| `Basics.dfy` | bytes, options and copying |

Code that works by assignment is written as methods on arrays and classes; each method is proved
against a function or predicate on values, and the properties of runs are proved of those.
Concurrency (`RingSpsc`, `ButtonsAtomic`, `MyLog`) is modelled as a sequence of atomic steps in any
order. What the environment decides is a parameter: the slave's acknowledges and bytes, whether an
instance can be created, whether the rail has settled, whether a timer starts.

## Where the code does not do what one would expect

- A sensor can wait for a timer that was taken away: creating the instance fails after the timer was
  started, and at the next attempt the rail has already settled, so that the timer stream is removed
  and the pending state is not (`ArbitrationRuns.StuckRun`). Only this step does it
  (`ArbitrationRuns.StuckIff`), and only removing a request helps (`ArbitrationRuns.BlockedForGood`,
  `ArbitrationRuns.RemovalProgramsAnyway`).
- A request made while the rail is voted off under a live instance is accepted, and no event short of
  a removal on that sensor ever programs it (`ArbitrationRuns.UnpoweredRequest`). What becomes of any
  configuration, after any run and in any continuation, is `ArbitrationRuns.EveryConfigurationsFate`,
  with `ArbitrationRuns.CreationDecides` for the one that creates the instance; the guard is the one at
  sensor_driver/src/sns_demo_sensor_island.c:349-350.
- The comment at sensor_driver/src/sns_demo_sensor_island.c:456 says that a calibration reset cannot
  be the first request; the code creates an instance for it (`ArbitrationRuns.ResetCreatesInstance`).
  Which events leave an instance is `ArbitrationRuns.InstanceIffCreated`.
- `SENSOR_HZ` truncates, so that the lower rates of the chip are 0, 1, 3, 6 and 12, and a request for
  25/32 Hz, the slowest the chip has, switches the sensor off (`Arbitration.SlowestRateIsOff`). A sensor
  is on exactly for clamped rates of at least 1 Hz (`Arbitration.PoweredIff`; over runs
  `Arbitration.EveryRunIsOnIff`).
- The FIFO parser never ends on data that does not begin with the terminator when neither sensor is
  enabled; the exact condition is `FifoParser.EndsIff`.
- A FIFO sample whose first word is one of the marks is lost; the exact condition is
  `FifoParser.RoundTripIff`.
- An open of the button device may be refused although nobody holds it
  (`ButtonsAtomic.SpuriousBusy`; exact condition `ButtonsAtomic.OpenSucceedsIff`).
- `button_close` gives the device back before it frees its interrupt lines, and `button_open` does not
  look at what `request_irq` returns. A process that opens in between is refused lines that are not
  free yet and then holds the device without a handler (`ButtonsAtomic.DeafHolder`). As all processes
  register under the same `&pins_desc`, a close that is still at work also frees lines that a later
  open was granted (`ButtonsAtomic.LostHandlers`). The exact condition is `ButtonsAtomic.HandlerIff`.
- Masking the ring buffer indices is right exactly for power-of-two sizes (`Bits.MaskExactIff`);
  nothing in the code checks the size.
- `list_cut_position` on an empty list, or on a list whose single entry is another one, leaves the
  receiving head as it was (`KernelList.ListCutPosition`); the comment above it suggests that it always
  gets the cut part.
- `s3c2440_i2c_xfer->iicds` at i2c/3.4.2内核/i2c_bus.c:38 and 41 names a function; the model takes it
  for `s3c2440_i2c_regs->iicds`.

## Model

| member | source | states |
|---|---|---|
| `KernelList.EntriesUnique` | 基础知识/kernel_list/kernel-4.11/list.h:22-31 | a well-formed ring determines its entries: two sequences read from the same head are equal, so every sequence stated below is the list itself |
| `KernelList.QueriesDecide` | 基础知识/kernel_list/kernel-4.11/list.h:179-233 | `list_empty`, `list_empty_careful`, `list_is_singular` and `list_is_last` decide emptiness, length one and being last |
| `KernelList.ListAddBetween` | 基础知识/kernel_list/kernel-4.11/list.h:40-48 | four pointer writes put one node into a ring between two neighbours |
| `KernelList.ListUnlink` | 基础知识/kernel_list/kernel-4.11/list.h:89-93 | closes the ring around a part; the part keeps its inner links |
| `KernelList.ListSpliceBetween` | 基础知识/kernel_list/kernel-4.11/list.h:276-288 | the entries of one ring, without its head, are sewn into another ring |
| `KernelList.InitListHead` | 基础知识/kernel_list/kernel-4.11/list.h:27-31 | any node becomes an empty list |
| `KernelList.ListAdd` | 基础知识/kernel_list/kernel-4.11/list.h:63-66 | the node comes to the front |
| `KernelList.ListAddTail` | 基础知识/kernel_list/kernel-4.11/list.h:77-80 | the node comes to the back |
| `KernelList.ListDelEntry` | 基础知识/kernel_list/kernel-4.11/list.h:102-105 | exactly entry `k` disappears; the head stays a well-formed list |
| `KernelList.ListDel` | 基础知识/kernel_list/kernel-4.11/list.h:107-112 | the same, and the node is left with the two poison pointers |
| `KernelList.ListDelInit` | 基础知识/kernel_list/kernel-4.11/list.h:145-149 | the same, and the node is an empty list of its own |
| `KernelList.ListMove` | 基础知识/kernel_list/kernel-4.11/list.h:156-160 | between two lists or inside one: the node leaves the one and heads the other; both stay well formed, no node is lost |
| `KernelList.ListMoveTail` | 基础知识/kernel_list/kernel-4.11/list.h:167-172 | the same to the back |
| `KernelList.MovedNodeApart` | 基础知识/kernel_list/kernel-4.11/list.h:156-172 | the moved node is in neither list while it is between them |
| `KernelList.ListRotateLeft` | 基础知识/kernel_list/kernel-4.11/list.h:217-225 | the first entry becomes the last; an empty list is left alone |
| `KernelList.RotationsAreASplit` | 基础知识/kernel_list/kernel-4.11/list.h:217-225 | `n` rotations swap the first `n` entries with the rest |
| `KernelList.RotateFully` | 基础知识/kernel_list/kernel-4.11/list.h:217-225 | rotating as often as there are entries gives back the original list |
| `KernelList.ListSplice` | 基础知识/kernel_list/kernel-4.11/list.h:295-300 | the entries of one list come before those of the other |
| `KernelList.ListSpliceInit` | 基础知识/kernel_list/kernel-4.11/list.h:321-328 | the same, and the source list is empty afterwards |
| `KernelList.ListSpliceTail` | 基础知识/kernel_list/kernel-4.11/list.h:307-312 | the entries of one list come behind those of the other |
| `KernelList.ListSpliceTailInit` | 基础知识/kernel_list/kernel-4.11/list.h:338-345 | the same, and the source list is empty afterwards |
| `KernelList.ListCutAfter` | 基础知识/kernel_list/kernel-4.11/list.h:236-246 | a front part ending with `entry` moves to the other head; both lists are well formed |
| `KernelList.ListCutPosition` | 基础知识/kernel_list/kernel-4.11/list.h:262-274 | splits the sequence exactly behind `entry`, nothing when it is the head; both lists untouched when the list is empty or its single entry is another one |
| `KernelList.CutThenSplice` | 基础知识/kernel_list/kernel-4.11/list.h:262-328 | cutting anywhere and splicing back with `list_splice_init` is the identity |
| `KernelList.ListReplace` | 基础知识/kernel_list/kernel-4.11/list.h:125-132 | one position of the ring, entry or head, is exchanged for the new node; a ring of one node works too |
| `KernelList.ListReplaceInit` | 基础知识/kernel_list/kernel-4.11/list.h:134-139 | the same, and the replaced node is an empty list of its own |
| `KernelList.ListDelRange` | 基础知识/kernel_list/kernel-4.11/list.h:759-764 | exactly the entries `i` to `j` disappear; the range stays chained to itself |
| `KernelList.SafeBody` | 基础知识/kernel_list/kernel-4.11/list.h:145-149 | one body of the loop that deletes its node or not: survivors and deleted nodes stay sorted out |
| `KernelList.SurvivorsKeepOrder` | 基础知识/kernel_list/kernel-4.11/list.h:427-429 | the survivors of a sweep are the entries not deleted, each once and in their old order |
| `KernelList.ForEachSafe` | 基础知识/kernel_list/kernel-4.11/list.h:427-429 | safe iteration that deletes any subset with `list_del_init` visits every original entry once and in order, and leaves exactly the survivors in order |
| `HList.PprevIsTheSlot` | 基础知识/kernel_list/kernel-4.11/list.h:600-694 | every `pprev` names the one slot of the list that points at its node, and no other slot does |
| `HList.EntriesUnique` | 基础知识/kernel_list/kernel-4.11/list.h:597-604 | a head determines its entries |
| `HList.QueriesDecide` | 基础知识/kernel_list/kernel-4.11/list.h:606-614 | `hlist_empty` decides emptiness, and no entry of a list counts as unhashed |
| `HList.Store` | 基础知识/kernel_list/kernel-4.11/list.h:616-624 | a write through a slot changes the named field and nothing else of that object |
| `HList.HListUnlink` | 基础知识/kernel_list/kernel-4.11/list.h:616-624 | exactly the node between two parts disappears |
| `HList.PointSlot` | 基础知识/kernel_list/kernel-4.11/list.h:621-621 | a write through the slot behind a front part changes where that part leads and nothing else |
| `HList.Bridge` | 基础知识/kernel_list/kernel-4.11/list.h:618-623 | the two writes of `__hlist_del` connect front and rest, slot included |
| `HList.HListDelInit` | 基础知识/kernel_list/kernel-4.11/list.h:633-639 | the same, and the node is unhashed; an unhashed node is left alone |
| `HList.HListAddHead` | 基础知识/kernel_list/kernel-4.11/list.h:641-649 | the node comes to the front |
| `HList.HListAddBefore` | 基础知识/kernel_list/kernel-4.11/list.h:652-659 | the node comes directly before a given entry, also when that is the first |
| `HList.HListAddBehind` | 基础知识/kernel_list/kernel-4.11/list.h:661-670 | the node comes directly behind a given entry, also when that is the last |
| `HList.HListMoveList` | 基础知识/kernel_list/kernel-4.11/list.h:687-694 | all entries change their head; the former head is empty, also when both are the same and the list is lost |
| `I2cBus.Master.I2cStart` | i2c/3.4.2内核/i2c_bus.c:33-45 | address and direction are programmed; on a free bus the address byte goes out, otherwise it waits for the pending flag |
| `I2cBus.Master.I2cStop` | i2c/3.4.2内核/i2c_bus.c:47-67 | IICSTAT is 0x90 or 0xd0 by the direction of the message and IICCON 0xaf; one stop condition goes out, as the controller sends it only in master mode with its output on; the state is STOP with the given error |
| `I2cBus.Master.NextMsg` | i2c/3.4.2内核/i2c_bus.c:169-176 | the next message begins with a repeated start that waits for the pending flag |
| `I2cBus.Master.WriteCase` | i2c/3.4.2内核/i2c_bus.c:154-182 | the WRITE case does what one step of the transfer says: abort without acknowledge, else next byte, next message or end |
| `I2cBus.Master.NextRead` | i2c/3.4.2内核/i2c_bus.c:189-209 | the label `next_read`: the next byte is asked for, acknowledged unless it is the last |
| `I2cBus.Master.StartCase` | i2c/3.4.2内核/i2c_bus.c:135-152 | the START case, including the jump into reading, the fall through into writing and the empty last message |
| `I2cBus.Master.XferIrq` | i2c/3.4.2内核/i2c_bus.c:126-218 | the handler as a whole, registers included, is one step of the transfer |
| `I2cBus.Master.Interrupt` | i2c/3.4.2内核/i2c_bus.c:126-218 | the same behind the controller latching its status and its data byte |
| `I2cBus.Master.Transfer` | i2c/3.4.2内核/i2c_bus.c:69-89 | the return value is -ENODEV if the slave refused, 0 if all interrupts came, -ETIMEDOUT otherwise; state, buffers and wire are those of the run; a stopped transfer leaves IICSTAT as the stop wrote it |
| `I2cSpec.StepKeepsValid` | i2c/3.4.2内核/i2c_bus.c:111-209 | message index, byte index and direction fit together after every interrupt |
| `I2cRuns.AdvanceOnTrack` | i2c/3.4.2内核/i2c_bus.c:160-209 | going on to the next byte or message keeps wire, position and buffers in step with the exchange the messages stand for |
| `I2cRuns.StepOnTrack` | i2c/3.4.2内核/i2c_bus.c:126-218 | one interrupt that is not refused does so too |
| `I2cRuns.RunOnTrack` | i2c/3.4.2内核/i2c_bus.c:126-218 | so does every run of them |
| `I2cRuns.AnsweredTransferCompletes` | i2c/3.4.2内核/i2c_bus.c:33-218 | with a slave that answers, after `k` interrupts exactly the first `k + 1` events of the full exchange are on the wire; it ends with error 0 after the sum of length + 1 interrupts, zero-length messages included, and later interrupts change nothing |
| `I2cRuns.CompletedWire` | i2c/3.4.2内核/i2c_bus.c:154-209 | on the wire of a completed transfer each message is its address byte and then its bytes in order; in a read all bytes but the last are acknowledged (section 3.1.6 of UM10204) |
| `I2cRuns.CompletedBuffer` | i2c/3.4.2内核/i2c_bus.c:184-189 | each read buffer holds the bytes the slave sent, in order; write buffers are unchanged |
| `I2cRuns.RefusedTransferAborts` | i2c/3.4.2内核/i2c_bus.c:134-158 | a missing acknowledge of an address or written byte ends the transfer with -ENODEV; the wire holds a prefix of the full exchange and a stop, and the buffers what was received before |
| `I2cRuns.RefusedBuffer` | i2c/3.4.2内核/i2c_bus.c:184-189 | after a refusal each read buffer holds the bytes received before it and is otherwise as it was; write buffers are unchanged |
| `I2cRuns.RefusedStep` | i2c/3.4.2内核/i2c_bus.c:134-158 | the interrupt that reports it is the one that stops |
| `I2cRuns.CheckedInRange` | i2c/3.4.2内核/i2c_bus.c:134-158 | only interrupts of the transfer itself can refuse |
| `I2cRuns.FirstRefusal` | i2c/3.4.2内核/i2c_bus.c:134-158 | among refusals there is a first one |
| `I2cRuns.StoppedForGood` | i2c/3.4.2内核/i2c_bus.c:126-218 | nothing happens after a stop |
| `I2cRuns.Outcome` | i2c/3.4.2内核/i2c_bus.c:69-89 | every run ends refused, completed or still active, and which one is decided by the acknowledge bits and the number of interrupts alone |
| `I2cRuns.ActiveStatesAreInBounds` | i2c/3.4.2内核/i2c_bus.c:111-209 | in every reachable active state the message index and the byte index are in bounds, so every buffer access is |
| `Bits.MaskIsCell` | 基础知识/ringbuffer/ringbuffer.c:60-61 | for a power of two, masking with size - 1 is taking the remainder |
| `Bits.BitAndBits` | 基础知识/ringbuffer/ringbuffer.c:60-61 | each bit of the masked index is set if and only if it is set in index and mask |
| `Bits.WrapIs32Bits` | 基础知识/ringbuffer/ringbuffer.c:27-32 | the indices wrap around at two to the power of 32 |
| `Bits.MaskExactIff` | 基础知识/ringbuffer/ringbuffer.c:18-18 | for every other size it is not: masking is right for all indices if and only if the size is a power of two |
| `Bits.WholeTurns` | 基础知识/ringbuffer/ringbuffer.c:40-74 | a power of two not below the size is a whole number of turns around the buffer |
| `Bits.WrappedCell` | 基础知识/ringbuffer/ringbuffer.c:40-110 | an index that overflowed at 2^32 leads to the same cell: wrap-around is invisible |
| `Bits.CellsDiffer` | 基础知识/ringbuffer/ringbuffer.c:40-110 | positions less than a buffer apart have different cells |
| `RingBuffer.Ring.constructor` | 基础知识/ringbuffer/ringbuffer.c:27-32 | a ring of a power-of-two size starts empty |
| `RingBuffer.Ring.ValidLength` | 基础知识/ringbuffer/ringbuffer.c:112-116 | the unsigned difference of the indices is the number of stored bytes, also across overflow |
| `RingBuffer.Ring.Write` | 基础知识/ringbuffer/ringbuffer.c:40-74 | appends exactly the first min(len, free) bytes to the FIFO and moves only `in` |
| `RingBuffer.Ring.CopyIn` | 基础知识/ringbuffer/ringbuffer.c:60-63 | the two copies write one stretch going round and leave every other cell alone |
| `RingBuffer.Ring.Read` | 基础知识/ringbuffer/ringbuffer.c:77-110 | removes and returns exactly the first min(len, used) bytes, moves only `out`, and leaves the rest of the caller's buffer alone |
| `RingBuffer.Ring.CopyOut` | 基础知识/ringbuffer/ringbuffer.c:97-100 | the two copies fetch one stretch going round |
| `RingBuffer.FreeSpace` | 基础知识/ringbuffer/ringbuffer.c:46-46 | size - in + out in unsigned arithmetic is the free space |
| `RingBuffer.TwoPartsAreOne` | 基础知识/ringbuffer/ringbuffer.c:60-63 | a copy up to the end and the rest to the front are one copy going round |
| `RingBuffer.AppendedWindow` | 基础知识/ringbuffer/ringbuffer.c:60-71 | writing behind the stored bytes appends and disturbs none of them |
| `RingBuffer.RemovedWindow` | 基础知识/ringbuffer/ringbuffer.c:97-107 | advancing the read index drops a front part |
| `RingSpsc.CopyCellIsCell` | 基础知识/ringbuffer/ringbuffer.c:60-63 | byte `j` of the two-part copy moves to or from cell index + `j` |
| `RingSpsc.WByteKeeps` | 基础知识/ringbuffer/ringbuffer.c:60-63 | storing one byte between two steps of the reader keeps everything the reader may still fetch |
| `RingSpsc.WPublishKeeps` | 基础知识/ringbuffer/ringbuffer.c:71-73 | publishing `in` hands over exactly the copied bytes |
| `RingSpsc.RByteKeeps` | 基础知识/ringbuffer/ringbuffer.c:97-100 | a byte fetched while the writer is copying is the next accepted one |
| `RingSpsc.RPublishKeeps` | 基础知识/ringbuffer/ringbuffer.c:107-109 | publishing `out` releases exactly the fetched bytes |
| `RingSpsc.StepKeeps` | 基础知识/ringbuffer/ringbuffer.c:40-110 | every step of either side keeps the invariant, and what was accepted or delivered is never taken back |
| `RingSpsc.RunKeeps` | 基础知识/ringbuffer/ringbuffer.c:40-110 | so it holds in every interleaving of one writer and one reader |
| `RingSpsc.ReaderSeesPrefix` | 基础知识/ringbuffer/ringbuffer.c:40-110 | in every interleaving the bytes read are a prefix of the bytes accepted, at most a buffer behind |
| `RingSpsc.CopiesDoNotCollide` | 基础知识/ringbuffer/ringbuffer.c:60-100 | no cell still to be written by a copy in progress is still to be read by the other side |
| `RingSpsc.FifoIs` | 基础知识/ringbuffer/ringbuffer.c:112-116 | the stored bytes between the indices are those accepted and not yet delivered |
| `RingSpsc.SoloWrite` | 基础知识/ringbuffer/ringbuffer.c:40-74 | the writer's steps with none of the reader's in between append the first min(len, free) bytes, as `Ring.Write` does |
| `RingSpsc.SoloRead` | 基础知识/ringbuffer/ringbuffer.c:77-110 | the reader's steps with none of the writer's in between deliver and remove the first min(len, used) bytes, as `Ring.Read` does |
| `SensorRate.RoundUp` | sensor_driver/src/sns_demo_sensor_instance.c:60-97 | the least rate of the chip not below the request, the greatest one for anything above |
| `SensorRate.ComputeOdr` | sensor_driver/src/sns_demo_sensor_instance.c:60-141 | the chain of comparisons and the falling-through switch compute that rate and its code |
| `SensorRate.ClampBounds` | sensor_driver/src/sns_demo_sensor_instance.c:201-207 | for ordered limits a clamped positive rate lies between them, is the rate itself inside and the nearer limit outside; for limits in the wrong order it is the upper one; 0 and less become 0 |
| `SensorRate.SettleBounds` | sensor_driver/src/sns_demo_sensor_instance.c:201-208 | no settled rate is above the upper limit rounded up, nor, for a positive request and ordered limits within the table, below the lower one |
| `SensorRate.CodeIsPosition` | sensor_driver/src/sns_demo_sensor_instance.c:98-141 | the code of a chip rate is its position in the table, counted from 1 |
| `SensorRate.SettleIsIdempotent` | sensor_driver/src/sns_demo_sensor_instance.c:201-208 | clamping and rounding an already programmed rate does not move it, for all limits |
| `SensorRate.SettleIsMonotone` | sensor_driver/src/sns_demo_sensor_instance.c:201-208 | a greater request never gets a smaller rate |
| `Arbitration.CodeSticks` | sensor_driver/src/sns_demo_sensor_instance.c:213-225 | only the code nibble of the first register byte changes, and writing it twice is writing it once |
| `Arbitration.ConfigHwIsStable` | sensor_driver/src/sns_demo_sensor_instance.c:178-310 | configuring the hardware a second time changes nothing |
| `Arbitration.OthersUntouched` | sensor_driver/src/sns_demo_sensor_instance.c:178-310 | configuring one sensor keeps rate, code and power byte of every other enabled sensor |
| `Arbitration.RevalPrograms` | sensor_driver/src/sns_demo_sensor.c:159-233 | the sensor itself is enabled and programmed to the rounded, clamped maximum of its live requests, with the maximum of their report rates |
| `Arbitration.ReportIsOncePerPeriod` | sensor_driver/src/sns_demo_sensor.c:141-146 | a batch period in microseconds stands for one report per period; without one the report rate is the sample rate |
| `Arbitration.MaxRateIsMax` | sensor_driver/src/sns_demo_sensor.c:120-156 | the sample rate chosen is the greatest of the live configurations that can be decoded, or 0; the report rate chosen serves each of them at least once per batch period, and one of them exactly |
| `Arbitration.MaximaAreUnique` | sensor_driver/src/sns_demo_sensor.c:120-156 | there is only one such rate each |
| `Arbitration.SameMax` | sensor_driver/src/sns_demo_sensor.c:120-156 | they depend neither on the order of the requests nor on those that configure nothing |
| `Arbitration.RemoveKeeps` | sensor_driver/src/sns_demo_sensor_island.c:328-332 | removing a request takes out one occurrence of it and keeps all others |
| `Arbitration.RestoredConfigs` | sensor_driver/src/sns_demo_sensor_island.c:494-501 | a refused replacement restores the configurations there were |
| `Arbitration.NewInstanceKeeps` | sensor_driver/src/sns_demo_sensor_island.c:363-401 | creating the instance, or failing to, keeps the invariant of the arbitration |
| `Arbitration.HandleNewKeeps` | sensor_driver/src/sns_demo_sensor_island.c:319-360 | so does a new or replacing configuration, programmed at once or deferred; at once means enabled |
| `Arbitration.RefusedKeeps` | sensor_driver/src/sns_demo_sensor_island.c:494-501 | so does a message that is refused |
| `Arbitration.RemoveEventKeeps` | sensor_driver/src/sns_demo_sensor_island.c:422-431 | so does a removal, which leaves its sensor programmed for the remaining requests |
| `Arbitration.TimerKeeps` | sensor_driver/src/sns_demo_sensor_island.c:165-177 | so does a timer event, which leaves its sensor programmed and no longer pending |
| `Arbitration.StepKeeps` | sensor_driver/src/sns_demo_sensor_island.c:403-515 | so does every event |
| `Arbitration.RunKeeps` | sensor_driver/src/sns_demo_sensor_island.c:403-515 | so does every run in which the rail is not voted off under the instance |
| `Arbitration.EveryRunIsProgrammed` | sensor_driver/src/sns_demo_sensor_island.c:165-515 | from power-up, in every such run, every sensor that was ever configured and waits for no timer is enabled, programmed to the rounded, clamped maximum of its live requests, and reports at the maximum of their report rates |
| `Arbitration.StableRegisters` | sensor_driver/src/sns_demo_sensor_instance.c:213-225 | the registers of an enabled sensor match its rate: the code is the table position of the rate, the power byte its class |
| `Arbitration.SoundStep` | sensor_driver/src/sns_demo_sensor_island.c:120-515 | every event, legal or not, rail on or off, keeps the instance settled and each sensor either not pending or with a deferred request pending |
| `Arbitration.EveryRunIsSound` | sensor_driver/src/sns_demo_sensor_island.c:120-515 | so does every run from power-up |
| `Arbitration.EveryRunMatchesRegisters` | sensor_driver/src/sns_demo_sensor_instance.c:189-290 | in every run of any events the register bytes last written match the rate of each enabled sensor |
| `Arbitration.PoweredIff` | sensor_driver/src/sns_demo_sensor_instance.c:216-225 | for all rates and limits the power byte is not 0 if and only if the clamped rate is at least 1 Hz |
| `Arbitration.SlowestRateIsOff` | sensor_driver/src/sns_demo_sensor_instance.c:87-92 | a request for the slowest rate of the chip, 25/32 Hz, is programmed as power off if and only if a limit is not positive |
| `Arbitration.EveryRunIsOnIff` | sensor_driver/src/sns_demo_sensor_instance.c:189-290 | in every run in which the rail is not voted off under the instance, a configured accelerometer or gyroscope that waits for nothing is on if and only if the clamped maximum of its live requests is at least 1 Hz |
| `ArbitrationRuns.StuckIff` | sensor_driver/src/sns_demo_sensor_island.c:374-387 | one step alone leaves a sensor pending without a timer: creating the instance with a settled rail while the sensor is pending |
| `ArbitrationRuns.NeverStuck` | sensor_driver/src/sns_demo_sensor_island.c:374-401 | so while instance creation succeeds, a pending sensor always has its timer |
| `ArbitrationRuns.TimersChangeOnly` | sensor_driver/src/sns_demo_sensor_island.c:137-205 | exactly what a batch of timer events changes: pending state, timer and rail in each pending state, no request list, and no other sensor |
| `ArbitrationRuns.TimersProgramAll` | sensor_driver/src/sns_demo_sensor_island.c:165-177 | if a configured sensor is not stuck, it is programmed for its live requests once the timers have expired |
| `ArbitrationRuns.DeferredRequestsAreProgrammed` | sensor_driver/src/sns_demo_sensor_island.c:165-515 | from power-up, in every run in which instances can be created, all configured sensors are programmed once the timers have expired |
| `ArbitrationRuns.ProgrammedIffGuard` | sensor_driver/src/sns_demo_sensor_island.c:349-357 | a new configuration is programmed at once if and only if the rail is voted on and nothing is pending; otherwise only the request list changes |
| `ArbitrationRuns.RemovalProgramsAnyway` | sensor_driver/src/sns_demo_sensor_island.c:422-427 | a removal programs the sensor whatever is pending |
| `ArbitrationRuns.WaitingGoesOn` | sensor_driver/src/sns_demo_sensor_island.c:349-388 | a sensor whose deferred request has a running timer keeps waiting through every run until that timer expires |
| `ArbitrationRuns.FateOfConfiguration` | sensor_driver/src/sns_demo_sensor_island.c:165-401 | a configuration accepted on a live instance is programmed at once if the guard holds, by the timer if one runs for it, and otherwise by nothing short of a removal on that sensor, whatever run follows |
| `ArbitrationRuns.CreationDecides` | sensor_driver/src/sns_demo_sensor_island.c:363-401 | an attempt to create the instance, successful or not, votes the rail to normal mode for the gyroscope and to low power mode for the others; its request is programmed at once if nothing is pending and no timer starts, by the timer if one starts or goes on running, and is stuck otherwise |
| `ArbitrationRuns.EveryConfigurationsFate` | sensor_driver/src/sns_demo_sensor_island.c:165-515 | from power-up, after every run of any events, the same three fates for every accepted configuration, whether it creates the instance or not, in every continuation |
| `ArbitrationRuns.BlockedForGood` | sensor_driver/src/sns_demo_sensor_island.c:349-388 | a sensor that waits for no timer while it is pending or the rail is off keeps its rate and its enabled bit through every run without a removal |
| `ArbitrationRuns.StuckRun` | sensor_driver/src/sns_demo_sensor_island.c:363-401 | a run that gets stuck: creation fails once after the timer was started, and then the rail has settled; the accepted 100 Hz request stays unprogrammed |
| `ArbitrationRuns.UnpoweredRequest` | sensor_driver/src/sns_demo_sensor_island.c:349-357 | a request made while the rail is voted off is accepted, and stays unprogrammed through every run without a removal |
| `ArbitrationRuns.InstanceIffCreated` | sensor_driver/src/sns_demo_sensor_island.c:456-459 | an event on a driver without an instance leaves one if and only if it is a message other than a flush, there is a master and the creation succeeds |
| `ArbitrationRuns.ResetCreatesInstance` | sensor_driver/src/sns_demo_sensor_island.c:456-459 | so a calibration reset as the first request leaves an instance, with no request in it |
| `ArbitrationLedger.ConfigurationIsBooked` | sensor_driver/src/sns_demo_sensor_island.c:328-338 | an accepted configuration puts itself on the list of its sensor and takes the request it replaces off, once; no other list changes |
| `ArbitrationLedger.RemovalIsBooked` | sensor_driver/src/sns_demo_sensor_island.c:422-427 | a removal takes one occurrence of the request off |
| `ArbitrationLedger.RefusalIsBooked` | sensor_driver/src/sns_demo_sensor_island.c:494-501 | a refused message stays on the list together with the request it was to replace, and nothing else of the state changes |
| `ArbitrationLedger.OthersChangeNothing` | sensor_driver/src/sns_demo_sensor_island.c:463-492 | a flush or a calibration reset on a live instance changes nothing |
| `ArbitrationLedger.ClientsLeaveRailAndTimers` | sensor_driver/src/sns_demo_sensor_island.c:403-515 | no client changes rail, pending states or timers once the instance is there |
| `ArbitrationLedger.CreationChangesOnly` | sensor_driver/src/sns_demo_sensor_island.c:363-401 | exactly what an attempt to create the instance changes, successful or not |
| `ArbitrationLedger.NoMasterNoCreation` | sensor_driver/src/sns_demo_sensor_island.c:397-399 | without a master sensor nothing is attempted and nothing changes |
| `ArbitrationLedger.EveryEventKeepsHighBits` | sensor_driver/src/sns_demo_sensor_instance.c:213-214 | no event changes more of the first register bytes than their code nibbles, nor mixes the two sensors up |
| `ArbitrationLedger.EveryRunFollows` | sensor_driver/src/sns_demo_sensor_island.c:120-515 | after every run of any events the request lists, as multisets, the instance and the rail vote are those of a ledger kept from the events alone |
| `ArbitrationLedger.EveryRunsRail` | sensor_driver/src/sns_demo_sensor_island.c:375-377 | while an instance lives and the rail has not been voted off since, the vote is that of the sensor whose request created it |
| `ArbitrationLedger.RequestsAreConserved` | sensor_driver/src/sns_demo_sensor_island.c:319-515 | in every legal run a request is live exactly as often as it was accepted and has not been replaced or removed |
| `ArbitrationLedger.AskedIsConfigured` | sensor_driver/src/sns_demo_sensor_island.c:340-352 | the sensors the invariant knows as configured are those a configuration of which the events had accepted |
| `ArbitrationLedger.PoweredIsNotDark` | sensor_driver/src/sns_demo_sensor_island.c:349-350 | a run kept the rail on under the instance if and only if the ledger is not dark |
| `ArbitrationLedger.EveryRunServesTheLedger` | sensor_driver/src/sns_demo_sensor_island.c:165-515 | from power-up, in every legal run: a sensor ever configured that waits for no timer, with the rail still on, is programmed to the rounded, clamped greatest rate of the ledger, and reports just often enough for all its batch periods |
| `ArbitrationLedger.EveryRunIsInBounds` | sensor_driver/src/sns_demo_sensor_instance.c:201-208 | in every run of any events an enabled sensor has a rate of the chip, not above the rounded upper limit and, if positive and the limits are in order and within the table, not below the lower one |
| `ArbitrationLedger.EveryRunKeepsTheMinimum` | sensor_driver/src/sns_demo_sensor_instance.c:201-208 | and one whose live requests want a positive rate is not left below the lower limit |
| `SensorDriver.Handle` | sensor_driver/src/sns_demo_sensor_island.c:120-515 | one event changes the objects as the model says; an instance that is there stays the same object, and one that is created is new |
| `SensorDriver.Replay` | sensor_driver/src/sns_demo_sensor_island.c:120-515 | the objects, driven from power-up by any events, are in the state of the run |
| `SensorDriver.ReplayIsProgrammed` | sensor_driver/src/sns_demo_sensor_island.c:165-515 | so the fields of the instance hold, for every configured sensor that waits for no timer, the rounded, clamped maximum of its live requests and the maximum of their report rates |
| `SensorDriver.ReplayServesTheLedger` | sensor_driver/src/sns_demo_sensor_island.c:120-515 | the request lists of the instance object are those of the ledger, and its rates serve it |
| `SensorDriver.SharedInstance.GetSensorConfig` | sensor_driver/src/sns_demo_sensor.c:120-156 | the loop over the requests computes both maxima and whether any configuration can be decoded |
| `SensorDriver.SharedInstance.ClampAndRound` | sensor_driver/src/sns_demo_sensor_instance.c:201-208 | the clamping branch and the rounding settle one rate and leave the others |
| `SensorDriver.SharedInstance.NewConf` | sensor_driver/src/sns_demo_sensor_instance.c:213-225 | the two register bytes for a rate |
| `SensorDriver.SharedInstance.ConfigHw` | sensor_driver/src/sns_demo_sensor_instance.c:178-310 | settles accelerometer, gyroscope and temperature, each if enabled |
| `SensorDriver.SharedInstance.RevalConfig` | sensor_driver/src/sns_demo_sensor.c:159-233 | takes both maxima, enables the sensor and configures the hardware |
| `SensorDriver.Library.NewInstance` | sensor_driver/src/sns_demo_sensor_island.c:363-401 | rail vote, timer, pending state and instance after a creation, successful or not |
| `SensorDriver.Library.HandleNewRequest` | sensor_driver/src/sns_demo_sensor_island.c:319-360 | request list, programming under its guard, and the return code |
| `SensorDriver.Library.SetClientRequest` | sensor_driver/src/sns_demo_sensor_island.c:403-515 | the new state of every branch, which requests are answered with the instance, and that a created instance is a new object |
| `SensorDriver.Library.Expire` | sensor_driver/src/sns_demo_sensor_island.c:143-192 | one expiry in each of the four pending states; the deferred power-off set without an instance is overwritten at once |
| `SensorDriver.Library.ProcessTimerEvent` | sensor_driver/src/sns_demo_sensor_island.c:125-205 | a whole batch of timer events does what one expiry does, or nothing without one, removes the stream once nothing is pending, and keeps the instance object |
| `SensorDriver.OnlyOnce` | sensor_driver/src/sns_demo_sensor_island.c:139-198 | a second expiry in one batch changes nothing |
| `SensorDriver.SharedInstance.ConfigAcc` | sensor_driver/src/sns_demo_sensor_instance.c:190-240 | the accelerometer's part, with both register bytes |
| `SensorDriver.SharedInstance.ConfigGyr` | sensor_driver/src/sns_demo_sensor_instance.c:242-290 | the gyroscope's part, with both register bytes |
| `SensorDriver.SharedInstance.ConfigTemp` | sensor_driver/src/sns_demo_sensor_instance.c:292-309 | the temperature sensor's part |
| `FifoParser.WordIs` | sensor_driver/src/sns_demo_hal_island.c:309-310 | the byte comparisons of the parser are comparisons of little-endian words |
| `FifoParser.TakeFrame` | sensor_driver/src/sns_demo_hal_island.c:314-356 | one sensor's branch: a frame is sent, a placeholder skipped, a short tail given up |
| `FifoParser.TakeFrames` | sensor_driver/src/sns_demo_hal_island.c:313-399 | both branches of one pass |
| `FifoParser.ReadsEnd` | sensor_driver/src/sns_demo_hal_island.c:400-402 | the test that may look behind the buffer cannot change what is sent |
| `FifoParser.HandleWatermark` | sensor_driver/src/sns_demo_hal_island.c:306-403 | on every buffer on which it terminates, the loop sends exactly the samples the buffer means |
| `FifoParser.EndsIff` | sensor_driver/src/sns_demo_hal_island.c:308-403 | the loop reaches a buffer that stops it if and only if a sensor is enabled, or the buffer is empty, or it begins with the terminator |
| `FifoParser.OnePass` | sensor_driver/src/sns_demo_hal_island.c:308-403 | one pass sends the samples of its frames and leaves the rest to the next |
| `FifoParser.EveryByteAccounted` | sensor_driver/src/sns_demo_hal_island.c:306-403 | published frames, placeholders, dropped tail and unread rest together are the buffer, in order |
| `FifoParser.TokensAreProper` | sensor_driver/src/sns_demo_hal_island.c:306-403 | what is published is no placeholder, at most five bytes are dropped, and the unread rest begins with the terminator |
| `FifoParser.DecodeEncoded` | sensor_driver/src/sns_demo_hal_island.c:306-403 | what decoding delivers of any encoded stream, also one that ends inside a slot |
| `FifoParser.DeliveredCount` | sensor_driver/src/sns_demo_hal_island.c:306-403 | nothing is delivered twice, and all is delivered exactly when no sample looks like a mark |
| `FifoParser.RoundTripIff` | sensor_driver/src/sns_demo_hal_island.c:306-403 | decoding returns the encoded samples if and only if no sample looks like a mark |
| `FifoParser.EveryBufferIsAStream` | sensor_driver/src/sns_demo_hal_island.c:299-310 | every buffer is such a stream, so that nothing the parser can be given is left out |
| `RamBlock.RamDisk.Serve` | block/ramblock4.c:76-89 | one request copies its sectors in its direction and touches nothing else |
| `RamBlock.RamDisk.Drain` | block/ramblock4.c:74-92 | the loop empties the queue and has served every request in order |
| `RamBlock.RamDisk.DoRequests` | block/ramblock4.c:68-94 | disk and every read buffer afterwards are those of the queue run as values; write buffers are unchanged |
| `RamBlock.DiskIsLastWrite` | block/ramblock4.c:74-92 | each byte of the disk is that of the last write covering it |
| `RamBlock.ReadSeesEarlierWrites` | block/ramblock4.c:74-92 | each byte read is that of the last earlier write covering it |
| `RamBlock.Commute` | block/ramblock4.c:74-92 | two requests without a conflict can be served in either order |
| `RamBlock.ConflictIff` | block/ramblock4.c:76-89 | two requests conflict if and only if one of them writes and they share a byte |
| `RamBlock.ServeFirst` | block/ramblock4.c:74-92 | a request that conflicts with nothing before it may be served first |
| `RamBlock.ReorderingIsInvisible` | block/readme:9-11 | every reordering that keeps conflicting requests in order gives the same disk and the same reads |
| `RamBlock.DrainFirst` | block/ramblock4.c:68-94 | draining one disk leaves another one, and the requests queued there, alone |
| `RamBlock.DrainSecond` | block/ramblock4.c:68-94 | and draining that one afterwards leaves the results of the first alone |
| `RamBlock.SameEnd` | block/readme:9-11 | two drained queues of the same requests, with conflicting ones in order, leave equal disks and equal buffers for each request |
| `RamBlock.DrainReordered` | block/ramblock4.c:68-94 | the loop itself: two equal disks that drain the same requests in two orders, with conflicting ones in the same order, end with equal disks and equal buffers |
| `Sorting.PassRight` | 基础知识/sort.c:42-52 | one pass brings the maximum of the unsorted part to its end |
| `Sorting.PassLeft` | 基础知识/sort.c:72-82 | the backward pass brings the minimum to its front |
| `Sorting.SortBubble` | 基础知识/sort.c:40-54 | a sorted permutation, for every length |
| `Sorting.SortBubbleV2` | 基础知识/sort.c:57-87 | the same for the cocktail sort |
| `Sorting.SortSelect` | 基础知识/sort.c:89-106 | the same for the selection sort |
| `Sorting.SortedIsUnique` | 基础知识/sort.c:40-106 | a multiset has one sorted arrangement |
| `Sorting.AllThreeAgree` | 基础知识/sort.c:40-106 | the three sorts give the same array |
| `MyLog.Log.TestsDecide` | debug/my_proc_mymsg.c:16-24 | empty and full are decided, and at most N - 1 characters are unread |
| `MyLog.Log.Putc` | debug/my_proc_mymsg.c:26-34 | appends, and drops the oldest unread character of a full ring |
| `MyLog.Log.Getc` | debug/my_proc_mymsg.c:36-46 | returns and removes the oldest unread character, or nothing |
| `MyLog.HistoryFollowsRing` | debug/my_proc_mymsg.c:26-46 | the history below changes its unread part as the two operations do |
| `MyLog.Log.Replay` | debug/my_proc_mymsg.c:16-50 | on an empty ring, any interleaving of the two operations returns and leaves what the history says |
| `MyLog.StepKeeps` | debug/my_proc_mymsg.c:16-46 | one operation keeps the history's invariant |
| `MyLog.EveryRun` | debug/my_proc_mymsg.c:16-46 | in every interleaving: unread is a suffix of at most N - 1 characters, reads are in write order, every character gone was either read or lost, and it was lost exactly when N - 1 newer ones had been written |
| `ButtonsAtomic.StepKeeps` | buttons/buttons_atomic.c:79-91 | every atomic step keeps flag + holders + restorers at 1 |
| `ButtonsAtomic.EveryRun` | buttons/buttons_atomic.c:51-91 | so it holds for every interleaving of any number of processes |
| `ButtonsAtomic.MutualExclusion` | buttons/buttons_atomic.c:79-91 | at most one process holds the device |
| `ButtonsAtomic.FlagTellsIdle` | buttons/buttons_atomic.c:79-91 | the flag is 1 exactly when no process is inside |
| `ButtonsAtomic.OpenSucceedsIff` | buttons/buttons_atomic.c:79-91 | an open succeeds if and only if nobody holds the device and nobody is backing out |
| `ButtonsAtomic.SpuriousBusy` | buttons/buttons_atomic.c:79-91 | an open that fails although nobody holds the device |
| `ButtonsAtomic.EveryLine` | buttons/buttons_atomic.c:79-91 | in every interleaving a registered line serves the holder, past its request for it, or is still to be freed by a close |
| `ButtonsAtomic.HandlerIff` | buttons/buttons_atomic.c:85-88 | a holder's request for a line, once no close has that line still to free, has given it the line if and only if no close had it still to free when it asked |
| `ButtonsAtomic.DeafForGood` | buttons/buttons_atomic.c:79-151 | a holder that finds a line it asked for free has no handler for it until it closes, whatever run follows |
| `ButtonsAtomic.OpenRun` | buttons/buttons_atomic.c:79-91 | an open at an idle flag is granted all lines if they are free, and none if they are taken |
| `ButtonsAtomic.DeafHolder` | buttons/buttons_atomic.c:145-151 | a run in which a process opens during a close and holds the device without any handler for good |
| `ButtonsAtomic.LostHandlers` | buttons/buttons_atomic.c:145-151 | and one in which the next process, granted all lines, loses them to that process's close |

## Left out

- Registration, module init and exit, ioremap, interrupt requests, device nodes: plumbing over code that is not part of this model.
- `list.h`: `container_of`, prefetching, `WRITE_ONCE`, the RCU variants and the iteration macros other than the safe ones; `hlist_add_fake`, `hlist_fake` and the poison values of `hlist_del`. A list node is an object of its own.
- KernelList.ListDel: the poison pointers are two nodes given by the caller, since a node here has no null pointers.
- KernelList.ForEachSafe: the body may delete its own node or leave it; bodies that change other nodes are outside what the macro promises.
- I2cBus.Master.Transfer: at least one message is assumed, as the code reads the first one unconditionally; the five-second wait is modelled as the interrupts that arrive before it ends; messages are values, so that two messages sharing a buffer are not modelled; delays and the printed arbitration failure are left out.
- I2cBus.Master.Interrupt: the bus side (when a start, a byte or a stop appears on the wire) is a model of the controller, which is not part of the repository.
- RingBuffer.Ring.Write: the caller's buffer must not be the ring's own memory, as for `memcpy`.
- RingSpsc: sequentially consistent memory; the code has no barriers.
- SensorRate.ComputeOdr: rates are real numbers, so rounding of floats is not modelled; the cast to `uint32_t` is a floor, which it is for every clamped rate.
- SensorRate: a negative maximum rate in the registry, which makes that cast undefined, is excluded by `Limits.Valid`.
- SensorDriver.SharedInstance.GetSensorConfig: only the payloads, not their decoding; a request either has a decoded body or none.
- SensorDriver.SharedInstance.RevalConfig: `chosen_sample_rate` of the sensor state, which is written with the report rate and otherwise only compared and logged, and the requested sample interval, which follows from the rate.
- SensorDriver.SharedInstance.ConfigHw: FIFO configuration and the polling timers; the watermark, a quotient by a report rate that can be 0; the clamping of `payload->sample_rate`, which is not used afterwards.
- SensorDriver.SharedInstance.ConfigAcc: the same three.
- SensorDriver.SharedInstance.ConfigGyr: the same three.
- SensorDriver.SharedInstance.ConfigTemp: the polling timer.
- SensorDriver.Library.SetClientRequest: what a flush does inside the instance; requests and rates are untouched by it.
- SensorDriver.Library.ProcessTimerEvent: the attributes published at the end of the INIT case; events that cannot be decoded count as no expiry.
- Arbitration.EveryRunIsProgrammed: starts after hardware detection, so that the INIT pending state and its timer are not part of a run; a later vote of the rail to off appears as an event of its own and is excluded only while an instance exists.
- Arbitration: the motion sensor has a chosen rate but, as in the code, none of the chip; what the registers hold before the first configuration is taken as 0; the flush protocol and calibration change no state here; one rail vote is shared by the sensors of a chip.
- FifoParser.HandleWatermark: calibration and scaling of samples, time stamps and the reading of the FIFO over the bus.
- RamBlock.RamDisk.DoRequests: one queue entry is one segment: `end_request` completes `current_nr_sectors` only, so that a request of several segments comes back to the head of the queue with its next one, which the model lists as an entry of its own. Every entry lies within the disk and has a number and a buffer of its own, which is what the block layer guarantees; a buffer shared by two queued requests is not modelled.
- Sorting.SortBubble: elements are unbounded integers, which no comparison or exchange can tell apart from `int`.
- MyLog: `myprintk` and `mymsg_read`, which write the wrong index and read one character too many; waking and waiting.
- ButtonsAtomic: `request_irq` and `free_irq` are not part of the repository. A request for a taken, unshared line is refused, as buttons/buttons_irq.c:26 and DMA/dma2.c:89 note; a release removes the registration with the given device id whoever made it. Handling of interrupts, polling and asynchronous notification are left out.
- The other drivers, demos and games of the repository: no property spanning several of their functions.
