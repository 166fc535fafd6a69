/** The completion queue (`SDQueueID`) as the adapter sees it through the CMSIS-RTOS2
    calls `osMessageQueueGet` and `osMessageQueuePut`: a FIFO of `int` messages
    with room for `QUEUE_SIZE` of them, or no queue at all while `SD_initialize`
    has not created one (the handle is then NULL and every call fails with
    `osErrorParameter`). Blocking is reduced to an oracle: a wait on an empty
    queue either receives the one message an interrupt posts meanwhile or times out. */
module MsgQueue {
  import opened Diskio

  datatype Option<T> = None | Some(value: T)

  /** The `osStatus_t` codes the two calls can return here. */
  datatype OsStatus = OsOk | OsErrorTimeout | OsErrorResource | OsErrorParameter

  /** Outcome of one `osMessageQueueGet`: its status, the message copied out (0
      when none was) and what is left in the queue. */
  datatype Received = Received(status: OsStatus, value: int, rest: seq<int>)

  /** Outcome of one `osMessageQueuePut`: its status and the queue afterwards. */
  datatype Posted = Posted(status: OsStatus, queue: seq<int>)

  /** `osMessageQueueGet(SDQueueID, &value, NULL, SD_TIMEOUT)`. `late` is what the
      interrupt side posts while the caller waits on an empty queue; `None` means
      that nothing arrives within `SD_TIMEOUT`. */
  function Get(created: bool, q: seq<int>, late: Option<int>): Received
  {
    if !created then Received(OsErrorParameter, 0, q)
    else if q != [] then Received(OsOk, q[0], q[1..])
    else match late
      case Some(v) => Received(OsOk, v, q)
      case None => Received(OsErrorTimeout, 0, q)
  }

  /** `osMessageQueuePut(SDQueueID, &value, osPriorityNormal, 0)`: timeout 0, so a
      full queue is reported at once instead of blocking. */
  function Put(created: bool, q: seq<int>, v: int): Posted
  {
    if !created then Posted(OsErrorParameter, q)
    else if |q| >= QUEUE_SIZE then Posted(OsErrorResource, q)
    else Posted(OsOk, q + [v])
  }

  /** A get removes at most one message, the oldest, and succeeds exactly when a
      queue exists and holds or receives a message. */
  lemma GetTakesOldest(created: bool, q: seq<int>, late: Option<int>)
    ensures var g := Get(created, q, late);
      && (g.status == OsOk <==> created && (q != [] || late.Some?))
      && (g.status == OsOk && q != [] ==> g.value == q[0] && g.rest == q[1..])
      && (g.status == OsOk && q == [] ==> g.value == late.value && g.rest == [])
      && (g.status != OsOk ==> g.rest == q)
  {
  }

  /** A put appends exactly one message when there is room, and otherwise leaves
      the queue as it was; it never takes the queue above its capacity. */
  lemma PutAppendsOne(created: bool, q: seq<int>, v: int)
    requires |q| <= QUEUE_SIZE
    ensures var p := Put(created, q, v);
      && (p.status == OsOk <==> created && |q| < QUEUE_SIZE)
      && (p.status == OsOk ==> p.queue == q + [v])
      && (p.status != OsOk ==> p.queue == q)
      && |p.queue| <= QUEUE_SIZE
  {
  }

  /** First in, first out: a message put behind the existing ones comes out of the
      next get only when the queue held nothing before it. */
  lemma {:induction false} PutThenGet(q: seq<int>, v: int)
    requires |q| < QUEUE_SIZE
    ensures var g := Get(true, Put(true, q, v).queue, None);
      && g.status == OsOk
      && g.value == (if q == [] then v else q[0])
      && g.rest == (if q == [] then [] else q[1..] + [v])
  {
    if q != [] {
      assert (q + [v])[1..] == q[1..] + [v];
    }
  }
}
