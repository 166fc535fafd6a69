/** The decision sequence shared by `SD_read` and `SD_write`: issue the DMA
    transfer, take one message from the completion queue, check its tag, poll the
    card state until `SD_TRANSFER_OK` or a tick deadline, then report `RES_OK` or
    `RES_ERROR`. Everything the hardware and the kernel answer arrives in a
    `TransferEnv`; the calls the adapter makes are recorded, in order, as `HwCall`s. */
module SdTransfer {
  import opened Diskio
  import opened MsgQueue
  import opened SdCache

  /** One pass of the polling loop: the tick read by its condition and, when the
      deadline has not passed, the card state `BSP_SD_GetCardState` answers. */
  datatype Poll = Poll(tick: uint32, cardState: uint8)

  /** The outside world during one read or write: the DMA-issue result, what the
      interrupt posts while the caller waits on an empty queue, the tick at which
      the deadline is taken, and the passes of the polling loop. */
  datatype TransferEnv = TransferEnv(issue: uint8, late: Option<int>, startTick: uint32, polls: seq<Poll>)

  /** The calls into the BSP, the kernel and the cache controller whose order matters. */
  datatype HwCall =
    | ReadBlocksDma(req: BlockRequest)
    | WriteBlocksDma(req: BlockRequest)
    | QueueGet
    | InvalidateDCache(range: CacheRange)
    | CleanDCache(range: CacheRange)

  /** Result code, queue contents afterwards, and the calls made. */
  datatype Transfer = Transfer(res: DResult, queue: seq<int>, calls: seq<HwCall>)

  /** `osKernelGetTickCount() + SD_TIMEOUT` in `uint32_t`: wraps past 2^32 - 1. */
  function Deadline(start: uint32): uint32
  {
    ((start as int + SD_TIMEOUT as int) % UINT32_MODULUS) as uint32
  }

  /** Whether `while (timer > osKernelGetTickCount())` ends by seeing
      `SD_TRANSFER_OK` (and breaking) rather than by the deadline. A trace that
      runs out before either reads as the deadline having passed. */
  function PollReady(timer: uint32, polls: seq<Poll>): bool
  {
    if polls == [] then false
    else if !(timer > polls[0].tick) then false
    else if polls[0].cardState == SD_TRANSFER_OK then true
    else PollReady(timer, polls[1..])
  }

  /** Pass `i` of the loop saw `SD_TRANSFER_OK`, and it and every pass before it
      read a tick still below the deadline. */
  ghost predicate SawTransferOk(timer: uint32, polls: seq<Poll>, i: int)
  {
    0 <= i < |polls| && polls[i].cardState == SD_TRANSFER_OK &&
    forall j :: 0 <= j <= i ==> timer > polls[j].tick
  }

  lemma {:induction false} PollReadyIff(timer: uint32, polls: seq<Poll>)
    ensures PollReady(timer, polls) <==> exists i :: SawTransferOk(timer, polls, i)
  {
    if polls != [] && timer > polls[0].tick {
      if polls[0].cardState == SD_TRANSFER_OK {
        assert SawTransferOk(timer, polls, 0);
      } else {
        PollReadyIff(timer, polls[1..]);
        if i :| SawTransferOk(timer, polls[1..], i) {
          assert SawTransferOk(timer, polls, i + 1);
        }
        if i :| SawTransferOk(timer, polls, i) {
          assert SawTransferOk(timer, polls[1..], i - 1);
        }
      }
    }
  }

  /** The polling loop of `SD_read` and `SD_write`. */
  method PollCardState(timer: uint32, polls: seq<Poll>) returns (ready: bool)
    ensures ready == PollReady(timer, polls)
  {
    ready := false;
    var i := 0;
    while i < |polls| && timer > polls[i].tick
      invariant 0 <= i <= |polls|
      invariant PollReady(timer, polls[i..]) == PollReady(timer, polls)
      invariant !ready
      decreases |polls| - i
    {
      if polls[i].cardState == SD_TRANSFER_OK {
        ready := true;
        break;
      }
      assert polls[i..][1..] == polls[i + 1..];
      i := i + 1;
    }
  }

  /** The wait-and-poll tail after a successful issue: one get from the queue,
      then success only for the expected tag and a poll that saw `SD_TRANSFER_OK`.
      Gives the outcome and the queue afterwards. */
  function AwaitCompletion(created: bool, queue: seq<int>, tag: int, env: TransferEnv): (bool, seq<int>)
  {
    var g := Get(created, queue, env.late);
    (g.status == OsOk && g.value == tag && PollReady(Deadline(env.startTick), env.polls), g.rest)
  }

  /** `SD_read`, with `maintain` for `ENABLE_SD_DMA_CACHE_MAINTENANCE`. */
  function ReadSpec(created: bool, queue: seq<int>, maintain: bool, req: BlockRequest, env: TransferEnv): Transfer
  {
    if env.issue != MSD_OK then Transfer(ResError, queue, [ReadBlocksDma(req)])
    else
      var (ok, rest) := AwaitCompletion(created, queue, READ_CPLT_MSG, env);
      var calls := [ReadBlocksDma(req), QueueGet];
      if ok then
        Transfer(ResOk, rest, calls + if maintain then [InvalidateDCache(MaintenanceRange(req.buff, req.count))] else [])
      else Transfer(ResError, rest, calls)
  }

  /** `SD_write`, with `maintain` for `ENABLE_SD_DMA_CACHE_MAINTENANCE`. */
  function WriteSpec(created: bool, queue: seq<int>, maintain: bool, req: BlockRequest, env: TransferEnv): Transfer
  {
    var clean := if maintain then [CleanDCache(MaintenanceRange(req.buff, req.count))] else [];
    if env.issue != MSD_OK then Transfer(ResError, queue, clean + [WriteBlocksDma(req)])
    else
      var (ok, rest) := AwaitCompletion(created, queue, WRITE_CPLT_MSG, env);
      Transfer(if ok then ResOk else ResError, rest, clean + [WriteBlocksDma(req), QueueGet])
  }

  /** `SD_read` succeeds exactly when the DMA issue returned `MSD_OK`, the get
      returned `osOK` with `READ_CPLT_MSG`, and some pass of the polling loop saw
      `SD_TRANSFER_OK` before the deadline; every other path gives `RES_ERROR`. */
  lemma ReadOkIff(created: bool, queue: seq<int>, maintain: bool, req: BlockRequest, env: TransferEnv)
    ensures var t := ReadSpec(created, queue, maintain, req, env);
            var g := Get(created, queue, env.late);
      && (t.res == ResOk || t.res == ResError)
      && (t.res == ResOk <==>
            env.issue == MSD_OK && g.status == OsOk && g.value == READ_CPLT_MSG &&
            exists i :: SawTransferOk(Deadline(env.startTick), env.polls, i))
  {
    PollReadyIff(Deadline(env.startTick), env.polls);
  }

  /** `SD_write` succeeds exactly when the DMA issue returned `MSD_OK`, the get
      returned `osOK` with `WRITE_CPLT_MSG`, and some pass of the polling loop saw
      `SD_TRANSFER_OK` before the deadline. */
  lemma WriteOkIff(created: bool, queue: seq<int>, maintain: bool, req: BlockRequest, env: TransferEnv)
    ensures var t := WriteSpec(created, queue, maintain, req, env);
            var g := Get(created, queue, env.late);
      && (t.res == ResOk || t.res == ResError)
      && (t.res == ResOk <==>
            env.issue == MSD_OK && g.status == OsOk && g.value == WRITE_CPLT_MSG &&
            exists i :: SawTransferOk(Deadline(env.startTick), env.polls, i))
  {
    PollReadyIff(Deadline(env.startTick), env.polls);
  }

  /** The DMA read is issued first, whatever the queue holds; a failed issue ends
      the call with no wait and the queue untouched; otherwise exactly one message
      is consumed whenever one is buffered, even one with the wrong tag, which
      then fails the call. */
  lemma ReadConsumesOneMessage(created: bool, queue: seq<int>, maintain: bool, req: BlockRequest, env: TransferEnv)
    ensures var t := ReadSpec(created, queue, maintain, req, env);
      && t.calls[0] == ReadBlocksDma(req)
      && (env.issue != MSD_OK ==> t.res == ResError && t.queue == queue && t.calls == [ReadBlocksDma(req)])
      && (env.issue == MSD_OK ==> t.calls[..2] == [ReadBlocksDma(req), QueueGet])
      && (env.issue == MSD_OK && created && queue != [] ==> t.queue == queue[1..])
      && (env.issue == MSD_OK && created && queue != [] && queue[0] != READ_CPLT_MSG ==> t.res == ResError)
      && (t.queue == queue || (queue != [] && t.queue == queue[1..]))
  {
  }

  /** The same for `SD_write`, whose first call is the clean when cache
      maintenance is on. */
  lemma WriteConsumesOneMessage(created: bool, queue: seq<int>, maintain: bool, req: BlockRequest, env: TransferEnv)
    ensures var t := WriteSpec(created, queue, maintain, req, env);
      && (env.issue != MSD_OK ==> t.res == ResError && t.queue == queue && QueueGet !in t.calls)
      && (env.issue == MSD_OK && created && queue != [] ==> t.queue == queue[1..])
      && (env.issue == MSD_OK && created && queue != [] && queue[0] != WRITE_CPLT_MSG ==> t.res == ResError)
      && (t.queue == queue || (queue != [] && t.queue == queue[1..]))
  {
  }

  /** The read-side invalidation is made only on the path that returns `RES_OK`
      (never after a timeout, a failed issue or a wrong message), as the last
      call, over the aligned range. */
  lemma ReadInvalidatesOnlyOnSuccess(created: bool, queue: seq<int>, maintain: bool, req: BlockRequest, env: TransferEnv)
    ensures var t := ReadSpec(created, queue, maintain, req, env);
      && (maintain && t.res == ResOk ==>
            t.calls == [ReadBlocksDma(req), QueueGet, InvalidateDCache(MaintenanceRange(req.buff, req.count))])
      && (!maintain || t.res != ResOk ==> forall c :: c in t.calls ==> !c.InvalidateDCache?)
      && (forall c :: c in t.calls ==> !c.CleanDCache?)
  {
  }

  /** With cache maintenance on, the write-side clean over the aligned range is the
      first call and the DMA issue the second, whatever the issue returns; no
      invalidation is ever made by a write. */
  lemma WriteCleansBeforeIssue(created: bool, queue: seq<int>, maintain: bool, req: BlockRequest, env: TransferEnv)
    ensures var t := WriteSpec(created, queue, maintain, req, env);
      && (maintain ==>
            && |t.calls| >= 2
            && t.calls[0] == CleanDCache(MaintenanceRange(req.buff, req.count))
            && t.calls[1] == WriteBlocksDma(req))
      && (!maintain ==> t.calls[0] == WriteBlocksDma(req) && forall c :: c in t.calls ==> !c.CleanDCache?)
      && (forall c :: c in t.calls ==> !c.InvalidateDCache?)
  {
  }

  /** Away from the top of the tick range the deadline is 30000 ticks after the
      start; within the last 30000 ticks it wraps to a value below the start. */
  lemma DeadlineArithmetic(start: uint32)
    ensures start as int + SD_TIMEOUT as int < UINT32_MODULUS ==> Deadline(start) as int == start as int + 30000
    ensures start as int + SD_TIMEOUT as int >= UINT32_MODULUS ==> Deadline(start) < start
  {
  }

  /** A consequence of the wrapped deadline: a read whose deadline is taken in the
      last 30000 ticks before the counter wraps, and whose first poll reads a tick
      not below that start, fails without ever asking for the card state, even
      when the completion message was the right one. */
  lemma ReadFailsWhenDeadlineWraps(created: bool, queue: seq<int>, maintain: bool, req: BlockRequest, env: TransferEnv)
    requires env.startTick as int + SD_TIMEOUT as int >= UINT32_MODULUS
    requires env.polls != [] && env.polls[0].tick >= env.startTick
    ensures ReadSpec(created, queue, maintain, req, env).res == ResError
  {
    DeadlineArithmetic(env.startTick);
  }

  /** The same wrapped deadline fails a write whose completion message was the
      right one. */
  lemma WriteFailsWhenDeadlineWraps(created: bool, queue: seq<int>, maintain: bool, req: BlockRequest, env: TransferEnv)
    requires env.startTick as int + SD_TIMEOUT as int >= UINT32_MODULUS
    requires env.polls != [] && env.polls[0].tick >= env.startTick
    ensures WriteSpec(created, queue, maintain, req, env).res == ResError
  {
    DeadlineArithmetic(env.startTick);
  }

  /** The wrapped deadline does not always fail the call: when the counter has
      itself wrapped before the first poll, that poll reads a tick below the
      deadline and a ready card gives `RES_OK`. */
  lemma ReadPollsAfterTickWraps(req: BlockRequest, start: uint32, tick: uint32)
    requires start as int + SD_TIMEOUT as int >= UINT32_MODULUS
    requires (tick as int) < start as int + SD_TIMEOUT as int - UINT32_MODULUS
    ensures var env := TransferEnv(MSD_OK, None, start, [Poll(tick, SD_TRANSFER_OK)]);
      ReadSpec(true, [READ_CPLT_MSG], false, req, env).res == ResOk
  {
    assert Deadline(start) as int == start as int + SD_TIMEOUT as int - UINT32_MODULUS;
  }

  /** The successful read scenario: the completion is already queued, the card
      reports `SD_TRANSFER_OK` at the first poll, and the invalidation covers the
      whole destination buffer. */
  lemma ReadScenario(req: BlockRequest, start: uint32)
    requires start as int + SD_TIMEOUT as int < UINT32_MODULUS
    requires req.count as int * BLOCKSIZE as int < UINT32_MODULUS
    requires req.buff as int + req.count as int * BLOCKSIZE as int <= UINT32_MODULUS
    ensures var env := TransferEnv(MSD_OK, None, start, [Poll(start, SD_TRANSFER_OK)]);
            var t := ReadSpec(true, [READ_CPLT_MSG], true, req, env);
      && t.res == ResOk && t.queue == []
      && t.calls[2].InvalidateDCache?
      && t.calls[2].range.addr <= req.buff
      && t.calls[2].range.addr as int + t.calls[2].range.len as int ==
           req.buff as int + req.count as int * BLOCKSIZE as int
  {
    DeadlineArithmetic(start);
    RangeCoversBuffer(req.buff, req.count);
  }

  /** The stale-event hazard: a write completion left in the queue by an earlier,
      timed-out write is taken by the next read, which fails even though its own
      completion arrives; the read completion then stays queued for the call after. */
  lemma StaleMessageFailsNextRead(maintain: bool, req: BlockRequest, env: TransferEnv)
    requires env.issue == MSD_OK
    ensures var t := ReadSpec(true, [WRITE_CPLT_MSG, READ_CPLT_MSG], maintain, req, env);
      t.res == ResError && t.queue == [READ_CPLT_MSG]
  {
  }
}
