/** The SD adapter's own state and entry points. The file-scope globals `Stat`
    and `SDQueueID` become the fields of one `SdDriver`; the queue handle is a flag
    saying whether `osMessageQueueNew` ran, plus the messages it holds. Answers of
    the BSP (`BSP_SD_Init`, `BSP_SD_GetCardState`, `BSP_SD_GetCardInfo`, the DMA
    issue) and of the kernel (`osKernelGetState`, the tick counter) are parameters. */
module SdDiskio {
  import opened Diskio
  import opened MsgQueue
  import opened SdCache
  import SdIoctl
  import opened SdTransfer

  /** `SD_CheckStatus`: `Stat` is set to `STA_NOINIT`, and the flag is cleared
      when the card state answer is `MSD_OK`. */
  function CheckedStatus(cardState: uint8): (s: DStatus)
    ensures s == 0 <==> cardState == MSD_OK
    ensures s == STA_NOINIT <==> cardState != MSD_OK
  {
    var s := STA_NOINIT;
    if cardState == MSD_OK then s & !STA_NOINIT else s
  }

  /** The `Stat` that `SD_initialize` ends with; `sdInit` is false when the
      adapter is built with `DISABLE_SD_INIT`. */
  function InitStatus(kernelRunning: bool, sdInit: bool, bspInit: uint8, cardState: uint8): DStatus
  {
    if !kernelRunning then STA_NOINIT
    else if sdInit && bspInit != MSD_OK then STA_NOINIT
    else CheckedStatus(cardState)
  }

  /** `SD_initialize` reports the drive ready exactly when the kernel runs, the BSP
      initialisation (if built in) succeeded and the card answers `MSD_OK`; it
      never reports anything but ready or `STA_NOINIT`. */
  lemma InitStatusIff(kernelRunning: bool, sdInit: bool, bspInit: uint8, cardState: uint8)
    ensures var s := InitStatus(kernelRunning, sdInit, bspInit, cardState);
      && (s == 0 || s == STA_NOINIT)
      && (s == 0 <==> kernelRunning && (!sdInit || bspInit == MSD_OK) && cardState == MSD_OK)
      && (!kernelRunning ==> s == STA_NOINIT)
      && (sdInit && bspInit != MSD_OK ==> s == STA_NOINIT)
  {
  }

  class SdDriver {
    var stat: DStatus
    var queueCreated: bool
    var queue: seq<int>
    /** False when built with `DISABLE_SD_INIT`. */
    const sdInit: bool
    /** `ENABLE_SD_DMA_CACHE_MAINTENANCE == 1`. */
    const cacheMaintenance: bool

    /** `Stat` only ever holds `STA_NOINIT` or 0, the queue never exceeds its
        capacity, and no message is held before the queue exists. */
    ghost predicate Valid()
      reads this
    {
      (stat == STA_NOINIT || stat == 0) &&
      |queue| <= QUEUE_SIZE &&
      (!queueCreated ==> queue == [])
    }

    /** The state at program start: `Stat = STA_NOINIT` and a NULL queue handle. */
    constructor (sdInit: bool, cacheMaintenance: bool)
      ensures Valid()
      ensures stat == STA_NOINIT && !queueCreated && queue == []
      ensures this.sdInit == sdInit && this.cacheMaintenance == cacheMaintenance
    {
      stat := STA_NOINIT;
      queueCreated := false;
      queue := [];
      this.sdInit := sdInit;
      this.cacheMaintenance := cacheMaintenance;
    }

    /** `SD_CheckStatus`, given the answer of `BSP_SD_GetCardState`. */
    method CheckStatus(cardState: uint8) returns (s: DStatus)
      requires Valid()
      modifies this`stat
      ensures Valid()
      ensures s == stat == CheckedStatus(cardState)
    {
      stat := STA_NOINIT;
      if cardState == MSD_OK {
        stat := stat & !STA_NOINIT;
      }
      s := stat;
    }

    /** `SD_initialize`: the queue is created (empty) only when the kernel runs and
        the resulting `Stat` is not `STA_NOINIT`; otherwise the queue is left as it was. */
    method Initialize(kernelRunning: bool, bspInit: uint8, cardState: uint8) returns (s: DStatus)
      requires Valid()
      modifies this`stat, this`queueCreated, this`queue
      ensures Valid()
      ensures s == stat == InitStatus(kernelRunning, sdInit, bspInit, cardState)
      ensures queueCreated == (old(queueCreated) || s != STA_NOINIT)
      ensures queue == if s != STA_NOINIT then [] else old(queue)
    {
      stat := STA_NOINIT;
      if kernelRunning {
        if sdInit {
          if bspInit == MSD_OK {
            stat := CheckStatus(cardState);
          }
        } else {
          stat := CheckStatus(cardState);
        }
        if stat != STA_NOINIT {
          queueCreated := true;
          queue := [];
        }
      }
      s := stat;
    }

    /** `SD_status`: re-reads the card state and updates `Stat`. */
    method Status(cardState: uint8) returns (s: DStatus)
      requires Valid()
      modifies this`stat
      ensures Valid()
      ensures s == stat == CheckedStatus(cardState)
    {
      s := CheckStatus(cardState);
    }

    /** `osMessageQueueGet(SDQueueID, &value, NULL, SD_TIMEOUT)`. */
    method Receive(late: Option<int>) returns (status: OsStatus, value: int)
      requires Valid()
      modifies this`queue
      ensures Valid()
      ensures var g := Get(queueCreated, old(queue), late);
        status == g.status && value == g.value && queue == g.rest
    {
      if !queueCreated {
        status, value := OsErrorParameter, 0;
      } else if queue != [] {
        status, value := OsOk, queue[0];
        queue := queue[1..];
      } else if late.Some? {
        status, value := OsOk, late.value;
      } else {
        status, value := OsErrorTimeout, 0;
      }
    }

    /** `osMessageQueuePut(SDQueueID, &value, osPriorityNormal, 0)`. */
    method Post(v: int) returns (status: OsStatus)
      requires Valid()
      modifies this`queue
      ensures Valid()
      ensures var p := Put(queueCreated, old(queue), v);
        status == p.status && queue == p.queue
    {
      if !queueCreated {
        status := OsErrorParameter;
      } else if |queue| >= QUEUE_SIZE {
        status := OsErrorResource;
      } else {
        queue := queue + [v];
        status := OsOk;
      }
    }

    /** `SD_read`. It does not look at `Stat`: the DMA read is issued whatever the
        drive status. */
    method Read(req: BlockRequest, env: TransferEnv) returns (res: DResult, calls: seq<HwCall>)
      requires Valid()
      modifies this`queue
      ensures Valid()
      ensures var t := ReadSpec(queueCreated, old(queue), cacheMaintenance, req, env);
        res == t.res && queue == t.queue && calls == t.calls
    {
      res := ResError;
      calls := [ReadBlocksDma(req)];
      if env.issue == MSD_OK {
        var status, value := Receive(env.late);
        calls := calls + [QueueGet];
        if status == OsOk {
          if value == READ_CPLT_MSG {
            var timer := Deadline(env.startTick);
            var ready := PollCardState(timer, env.polls);
            if ready {
              res := ResOk;
              if cacheMaintenance {
                calls := calls + [InvalidateDCache(MaintenanceRange(req.buff, req.count))];
              }
            }
          }
        }
      }
    }

    /** `SD_write`. Like `SD_read` it does not look at `Stat`; the clean runs
        before the DMA issue. */
    method Write(req: BlockRequest, env: TransferEnv) returns (res: DResult, calls: seq<HwCall>)
      requires Valid()
      modifies this`queue
      ensures Valid()
      ensures var t := WriteSpec(queueCreated, old(queue), cacheMaintenance, req, env);
        res == t.res && queue == t.queue && calls == t.calls
    {
      res := ResError;
      calls := [];
      if cacheMaintenance {
        calls := calls + [CleanDCache(MaintenanceRange(req.buff, req.count))];
      }
      calls := calls + [WriteBlocksDma(req)];
      if env.issue == MSD_OK {
        var status, value := Receive(env.late);
        calls := calls + [QueueGet];
        if status == OsOk {
          if value == WRITE_CPLT_MSG {
            var timer := Deadline(env.startTick);
            var ready := PollCardState(timer, env.polls);
            if ready {
              res := ResOk;
            }
          }
        }
      }
    }

    /** `SD_ioctl`, on the current `Stat`, given what `BSP_SD_GetCardInfo` reports. */
    method Ioctl(cmd: uint8, info: SdIoctl.CardInfo) returns (o: SdIoctl.IoctlOutcome)
      ensures o == SdIoctl.Ioctl(stat, cmd, info)
    {
      o := SdIoctl.Ioctl(stat, cmd, info);
    }

    /** `BSP_SD_ReadCpltCallback`: posts `READ_CPLT_MSG` without waiting; on a full
        or missing queue the message is lost. */
    method ReadCpltCallback()
      requires Valid()
      modifies this`queue
      ensures Valid()
      ensures queue == Put(queueCreated, old(queue), READ_CPLT_MSG).queue
    {
      var _ := Post(READ_CPLT_MSG);
    }

    /** `BSP_SD_WriteCpltCallback`: posts `WRITE_CPLT_MSG` without waiting; on a
        full or missing queue the message is lost. */
    method WriteCpltCallback()
      requires Valid()
      modifies this`queue
      ensures Valid()
      ensures queue == Put(queueCreated, old(queue), WRITE_CPLT_MSG).queue
    {
      var _ := Post(WRITE_CPLT_MSG);
    }
  }

  /** A client of the contracts above: initialising with a running kernel and a
      working card, letting the read interrupt fire, and reading with a card that
      is ready at the first poll gives `RES_OK` and leaves the queue empty. A later
      `SD_status` that finds the card gone sets `STA_NOINIT`, yet the next read
      (whose completion fires again) still succeeds, because `SD_read` never
      consults `Stat`. */
  method InitInterruptRead(req: BlockRequest, start: uint32) returns (first: DResult, second: DResult)
    requires start as int + SD_TIMEOUT as int < UINT32_MODULUS
    ensures first == ResOk && second == ResOk
  {
    var d := new SdDriver(true, true);
    var s := d.Initialize(true, MSD_OK, MSD_OK);
    d.ReadCpltCallback();
    var env := TransferEnv(MSD_OK, None, start, [Poll(start, SD_TRANSFER_OK)]);
    var calls;
    first, calls := d.Read(req, env);
    s := d.Status(1);
    assert d.stat == STA_NOINIT;
    d.ReadCpltCallback();
    second, calls := d.Read(req, env);
  }
}
