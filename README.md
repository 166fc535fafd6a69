# SD card disk-I/O adapter for FatFs, modelled in Dafny

`Src/sd_diskio.c` connects FatFs's blocking disk interface (`disk_initialize`,
`disk_status`, `disk_read`, `disk_write`, `disk_ioctl`) to an STM32 SD card that
moves data by DMA and signals each finished transfer from an interrupt. The
adapter keeps two globals: the drive status `Stat` (`STA_NOINIT` or 0) and a
CMSIS-RTOS2 message queue of capacity 10 that the interrupt callbacks feed with
`READ_CPLT_MSG` (1) and `WRITE_CPLT_MSG` (2). A read or write issues the DMA
transfer, takes one message from the queue (waiting up to `SD_TIMEOUT`, 30000
ticks), checks its tag, then polls the card until it reports `SD_TRANSFER_OK`
or a tick deadline passes. With data-cache maintenance built in, a read
invalidates and a write cleans the buffer's cache lines, starting at the buffer
address rounded down to 32 bytes.

The project has six modules:

- `Diskio` (`diskio.dfy`): fixed-width integers, `DSTATUS`, `DRESULT`, command
  codes and the adapter's constants.
- `MsgQueue` (`msg_queue.dfy`): the completion queue as a bounded FIFO.
  `Get` and `Put` model `osMessageQueueGet` and `osMessageQueuePut`. A NULL
  handle (queue never created) fails with `osErrorParameter`. A full queue
  fails a put with `osErrorResource`.
- `SdCache` (`sd_cache.dfy`): `& ~0x1F` as a bitwise AND on naturals, and
  the length of the cache range in `uint32_t` arithmetic.
- `SdIoctl` (`sd_ioctl.dfy`): `SD_ioctl` as a pure function of `Stat`, the
  command and the card information.
- `SdTransfer` (`sd_transfer.dfy`): the polling loop as a method and
  `SD_read`/`SD_write` as specification functions with their lemmas. The hardware
  and kernel answers come in a `TransferEnv`. The calls the adapter makes are
  recorded in order as `HwCall`s: DMA issue, queue get, cache invalidate or clean.
- `SdDiskio` (`sd_diskio.dfy`): the class `SdDriver`, whose fields are
  the globals and whose methods are the entry points and the two callbacks.
  Each method is proved against the specification functions.

Three behaviours of the code worth knowing, which the model reproduces:

- `SD_read` and `SD_write` never look at `Stat`. They issue the DMA transfer
  whatever the drive status, and can return `RES_OK` while `Stat` is
  `STA_NOINIT` once the queue exists (`SdDiskio.InitInterruptRead`). They fail
  before the first `SD_initialize` succeeds only because the queue does not
  exist yet, so the get fails. Even then the DMA transfer has already been issued.
- There is one deadline, taken after the completion message. The wait for the
  message is the queue's own `SD_TIMEOUT`. Nothing drains stale messages: a
  leftover completion is consumed by the next call
  (`SdTransfer.StaleMessageFailsNextRead`).
- The deadline `osKernelGetTickCount() + SD_TIMEOUT` is computed modulo 2^32,
  as `uint32_t` does (`SdTransfer.Deadline`). A deadline taken in the last 30000
  ticks before the counter wraps therefore lies below the start tick. When the
  first poll still reads a tick at or after the start, the polling loop ends
  before asking the card anything, and the call fails even though the transfer
  completed (`SdTransfer.ReadFailsWhenDeadlineWraps`,
  `SdTransfer.WriteFailsWhenDeadlineWraps`). When the counter has already wrapped
  by the first poll, the loop runs normally (`SdTransfer.ReadPollsAfterTickWraps`).

Constants that come from headers outside this model: `STA_NOINIT` = 0x01,
`RES_OK`..`RES_PARERR` = 0..4, `CTRL_SYNC`..`GET_BLOCK_SIZE` = 0..3 (FatFs
`diskio.h`), `MSD_OK` = `SD_TRANSFER_OK` = 0 and `BLOCKSIZE` = 512 (the STM32 SD
board-support header). `bsp_driver_sd.h` and `ff_gen_drv.h` are not part of this model.

## Model

| member | source | states |
|---|---|---|
| `MsgQueue.GetTakesOldest` | Src/sd_diskio.c:116-118 | a get succeeds exactly when the queue exists and holds or receives a message; it then removes exactly the oldest message, and on failure leaves the queue as it was |
| `MsgQueue.PutAppendsOne` | Src/sd_diskio.c:244-245 | a put with timeout 0 appends exactly one message when the queue exists and has room, and otherwise leaves it unchanged; the queue never exceeds `QUEUE_SIZE` (10) |
| `MsgQueue.PutThenGet` | Src/sd_diskio.c:245 | FIFO order between the equal-priority put here and the get at line 116: a message put behind others is returned by the next get only when the queue was empty; otherwise the oldest comes out and the new one stays at the back |
| `SdCache.AlignDown32` | Src/sd_diskio.c:134 | `buff & ~0x1F` is a multiple of 32, not above `buff`, and less than 32 below it |
| `SdCache.AndClearsLow5` | Src/sd_diskio.c:161 | for any 32-bit value, AND with `~0x1F` equals the value minus its remainder modulo 32 |
| `SdCache.RangeCoversBuffer` | Src/sd_diskio.c:161-162 | for a buffer inside the 32-bit address space whose byte count fits 32 bits, the range maintained starts 32-byte aligned at most 31 bytes before `buff` and ends exactly at `buff + count*BLOCKSIZE` |
| `SdIoctl.Ioctl` | Src/sd_diskio.c:195-235 | `RES_NOTRDY` exactly when the `STA_NOINIT` bit is set; `RES_OK` exactly for a ready drive and commands 0..3; `RES_PARERR` exactly for a ready drive and any other command; never `RES_ERROR`; on every non-`RES_OK` path `buff` is untouched and the card is not queried; the card is queried exactly for the three query commands |
| `SdIoctl.IoctlStoresCardInfo` | Src/sd_diskio.c:205-228 | `CTRL_SYNC` stores nothing; `GET_SECTOR_COUNT` stores `LogBlockNbr`; `GET_SECTOR_SIZE` stores `LogBlockSize` truncated to a `WORD`; `GET_BLOCK_SIZE` stores the number of whole 512-byte units in `LogBlockSize` |
| `SdIoctl.BlockSizeOf4096` | Src/sd_diskio.c:224-227 | a 4096-byte sector is reported as erase block size 8 |
| `SdTransfer.PollReadyIff` | Src/sd_diskio.c:122-139 | the polling loop ends in success exactly when some pass saw `SD_TRANSFER_OK` and that pass and every earlier one read a tick below the deadline |
| `SdTransfer.PollCardState` | Src/sd_diskio.c:124-139 | the `while (timer > tick)` loop with its `break` reports success exactly as the recursive definition does |
| `SdTransfer.ReadOkIff` | Src/sd_diskio.c:101-145 | `SD_read` returns only `RES_OK` or `RES_ERROR`; `RES_OK` exactly when the DMA issue gave `MSD_OK`, the get gave `osOK` with `READ_CPLT_MSG`, and a poll saw `SD_TRANSFER_OK` before the deadline |
| `SdTransfer.WriteOkIff` | Src/sd_diskio.c:149-191 | `SD_write` returns only `RES_OK` or `RES_ERROR`; `RES_OK` exactly when the DMA issue gave `MSD_OK`, the get gave `osOK` with `WRITE_CPLT_MSG`, and a poll saw `SD_TRANSFER_OK` before the deadline |
| `SdTransfer.ReadConsumesOneMessage` | Src/sd_diskio.c:111-120 | the DMA read is the first call; a failed issue returns `RES_ERROR` with no wait and the queue untouched; otherwise a buffered message is always consumed, and a wrong tag gives `RES_ERROR`; at most one message is ever removed |
| `SdTransfer.WriteConsumesOneMessage` | Src/sd_diskio.c:165-174 | a failed write issue returns `RES_ERROR` without a get and with the queue untouched; otherwise a buffered message is always consumed, and a wrong tag gives `RES_ERROR`; at most one message is removed |
| `SdTransfer.ReadInvalidatesOnlyOnSuccess` | Src/sd_diskio.c:126-137 | the invalidation over the aligned range happens exactly on the `RES_OK` path with maintenance on, as the last call; a read never cleans |
| `SdTransfer.WriteCleansBeforeIssue` | Src/sd_diskio.c:155-167 | with maintenance on, the clean over the aligned range is the first call and the DMA issue the second, whatever the issue returns; a write never invalidates |
| `SdTransfer.DeadlineArithmetic` | Src/sd_diskio.c:122 | the deadline is the start plus 30000 when that fits in 32 bits, and wraps below the start otherwise |
| `SdTransfer.ReadFailsWhenDeadlineWraps` | Src/sd_diskio.c:122-124 | a read whose deadline is taken in the last 30000 ticks before the counter wraps fails when its first poll reads a tick at or after that start, even with the right message |
| `SdTransfer.WriteFailsWhenDeadlineWraps` | Src/sd_diskio.c:176-178 | a write whose deadline is taken in the last 30000 ticks before the counter wraps fails when its first poll reads a tick at or after that start, even with the right message |
| `SdTransfer.ReadPollsAfterTickWraps` | Src/sd_diskio.c:122-128 | when the tick counter has wrapped between taking the deadline and the first poll, that poll sees a tick below the wrapped deadline, and a card ready there gives `RES_OK` |
| `SdTransfer.ReadScenario` | Src/sd_diskio.c:101-145 | with `READ_CPLT_MSG` queued and the card ready at the first poll, a read returns `RES_OK`, empties the queue and invalidates a range that ends exactly at the end of the buffer |
| `SdTransfer.StaleMessageFailsNextRead` | Src/sd_diskio.c:116-120 | a leftover `WRITE_CPLT_MSG` ahead of the read's own completion makes the read fail, and the read completion stays queued |
| `SdDiskio.CheckedStatus` | Src/sd_diskio.c:47-57 | the status is 0 exactly when the card state answer is `MSD_OK`, and `STA_NOINIT` exactly otherwise |
| `SdDiskio.InitStatusIff` | Src/sd_diskio.c:59-94 | `SD_initialize` yields 0 or `STA_NOINIT`; 0 exactly when the kernel runs, `BSP_SD_Init` (if built in) succeeded and the card answers `MSD_OK`; `STA_NOINIT` whenever the kernel is not running or `BSP_SD_Init` fails |
| `SdDiskio.SdDriver.constructor` | Src/sd_diskio.c:16-20 | the adapter starts with `Stat == STA_NOINIT` and no queue |
| `SdDiskio.SdDriver.CheckStatus` | Src/sd_diskio.c:47-57 | sets `Stat` to the checked status and returns it |
| `SdDiskio.SdDriver.Initialize` | Src/sd_diskio.c:59-94 | sets and returns `Stat` as `InitStatus` gives it; creates a new empty queue exactly when the result is not `STA_NOINIT`, and otherwise leaves queue and handle as they were |
| `SdDiskio.SdDriver.Status` | Src/sd_diskio.c:96-99 | re-checks the card and updates `Stat` |
| `SdDiskio.SdDriver.Receive` | Src/sd_diskio.c:116 | the get on the driver's queue, as `MsgQueue.Get` |
| `SdDiskio.SdDriver.Post` | Src/sd_diskio.c:245 | the non-blocking put on the driver's queue, as `MsgQueue.Put` |
| `SdDiskio.SdDriver.Read` | Src/sd_diskio.c:101-145 | result, queue afterwards and calls made are those of `ReadSpec` on the old queue, whatever `Stat` is; `Stat` is not changed |
| `SdDiskio.SdDriver.Write` | Src/sd_diskio.c:149-191 | result, queue afterwards and calls made are those of `WriteSpec` on the old queue, whatever `Stat` is; `Stat` is not changed |
| `SdDiskio.SdDriver.Ioctl` | Src/sd_diskio.c:195-200 | dispatch on the driver's current `Stat` |
| `SdDiskio.SdDriver.ReadCpltCallback` | Src/sd_diskio.c:248-256 | posts exactly one `READ_CPLT_MSG` when the queue exists and has room, and otherwise changes nothing |
| `SdDiskio.SdDriver.WriteCpltCallback` | Src/sd_diskio.c:238-246 | posts exactly one `WRITE_CPLT_MSG` when the queue exists and has room, and otherwise changes nothing |
| `SdDiskio.InitInterruptRead` | Src/sd_diskio.c:59-145 | initialise, interrupt, read gives `RES_OK`; after `SD_status` sets `STA_NOINIT`, another interrupt and read still give `RES_OK` |
| `MsgQueue.Get` | Src/sd_diskio.c:116 | the blocking get with timeout `SD_TIMEOUT`: a missing queue gives `osErrorParameter`; a non-empty queue gives its oldest message; an empty one gives the message posted meanwhile or `osErrorTimeout` (properties in `GetTakesOldest`) |
| `MsgQueue.Put` | Src/sd_diskio.c:245 | the put with timeout 0: a missing queue gives `osErrorParameter`, a full one `osErrorResource`, otherwise the message is appended (properties in `PutAppendsOne`) |
| `SdCache.BitAnd` | Src/sd_diskio.c:134 | bitwise AND of two unsigned values; the result is at most either operand (AND with `~0x1F` in `AndClearsLow5`) |
| `SdCache.MaintenanceRange` | Src/sd_diskio.c:134-135 | the aligned address and the `uint32_t` length `count*BLOCKSIZE + (buff - alignedAddr)` handed to both cache calls (properties in `AlignDown32`, `RangeCoversBuffer`) |
| `SdTransfer.Deadline` | Src/sd_diskio.c:122 | `osKernelGetTickCount() + SD_TIMEOUT` modulo 2^32 (properties in `DeadlineArithmetic`) |
| `SdTransfer.PollReady` | Src/sd_diskio.c:124-139 | whether the polling loop ends by seeing `SD_TRANSFER_OK` before the deadline (characterised in `PollReadyIff`) |
| `SdTransfer.AwaitCompletion` | Src/sd_diskio.c:116-139 | one get, the tag check and the polling loop after a successful issue; gives the outcome and the queue afterwards |
| `SdTransfer.ReadSpec` | Src/sd_diskio.c:101-145 | `SD_read`'s result, queue afterwards and calls made (properties in `ReadOkIff`, `ReadConsumesOneMessage`, `ReadInvalidatesOnlyOnSuccess`) |
| `SdTransfer.WriteSpec` | Src/sd_diskio.c:149-191 | `SD_write`'s result, queue afterwards and calls made (properties in `WriteOkIff`, `WriteConsumesOneMessage`, `WriteCleansBeforeIssue`) |
| `SdDiskio.InitStatus` | Src/sd_diskio.c:59-94 | the `Stat` `SD_initialize` ends with (properties in `InitStatusIff`) |

## Left out

- The CMSIS-RTOS2 queue internals, real blocking and the kernel's timing. A wait on an empty queue is an oracle that either receives one message or times out. The queue's contents at call time are given. Interrupts that fire during a call other than that one message are not modelled.
- The `message_attr` set-up and the `malloc` for the queue memory (lines 85-90). Creating the queue always succeeds here.
- The BSP calls (`BSP_SD_Init`, `BSP_SD_ReadBlocks_DMA`, `BSP_SD_WriteBlocks_DMA`, `BSP_SD_GetCardState`, `BSP_SD_GetCardInfo`). They are foreign code, and their answers are parameters.
- What `SCB_InvalidateDCache_by_Addr` and `SCB_CleanDCache_by_Addr` do to the cache. Only the arguments of each call, and whether and when it happens, are recorded.
- The data transferred. The model has no memory contents, so no write-then-read round trip is stated.
- The `SD_Driver` function-pointer table and the `_USE_WRITE` and `_USE_IOCTL` switches. Both operations are always present. `DISABLE_SD_INIT` and `ENABLE_SD_DMA_CACHE_MAINTENANCE` are the fields `sdInit` and `cacheMaintenance`.
- The `lun` argument. It is unused by the source.
- `SdTransfer.PollCardState`: the poll trace is finite. A trace that ends before the loop does is read as the deadline having passed. A real tick counter always reaches the deadline, so a complete trace always ends the loop itself.
- `SdCache.RangeCoversBuffer`: it requires the buffer's byte count `count*BLOCKSIZE` to be below 2^32 and the buffer to end at or below 2^32. A larger `count` makes the `uint32_t` product wrap, so the range no longer covers the buffer.
