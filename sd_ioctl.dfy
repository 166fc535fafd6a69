/** `SD_ioctl`: the control-command dispatch, a function of the drive status, the
    command byte and the card information the BSP reports (`BSP_SD_GetCardInfo`
    is reduced to the `info` parameter and a flag saying whether it was called). */
module SdIoctl {
  import opened Diskio

  /** The two fields of `BSP_SD_CardInfo` that the dispatch reads. */
  datatype CardInfo = CardInfo(logBlockNbr: uint32, logBlockSize: uint32)

  /** What the call stores through `buff`: nothing, a `DWORD` or a `WORD`. */
  datatype BuffWrite = Untouched | WroteDword(dword: uint32) | WroteWord(word: uint16)

  /** Result code, the store through `buff`, and whether the card was queried. */
  datatype IoctlOutcome = IoctlOutcome(res: DResult, out: BuffWrite, queried: bool)

  predicate Ready(stat: DStatus)
  {
    stat & STA_NOINIT == 0
  }

  function Ioctl(stat: DStatus, cmd: uint8, info: CardInfo): (o: IoctlOutcome)
    ensures o.res == ResNotRdy <==> !Ready(stat)
    ensures o.res == ResOk <==> Ready(stat) && cmd <= GET_BLOCK_SIZE
    ensures o.res == ResParErr <==> Ready(stat) && cmd > GET_BLOCK_SIZE
    ensures o.res != ResError
    ensures o.res != ResOk ==> o.out == Untouched && !o.queried
    ensures o.queried <==> o.res == ResOk && cmd != CTRL_SYNC
  {
    if stat & STA_NOINIT != 0 then IoctlOutcome(ResNotRdy, Untouched, false)
    else if cmd == CTRL_SYNC then IoctlOutcome(ResOk, Untouched, false)
    else if cmd == GET_SECTOR_COUNT then IoctlOutcome(ResOk, WroteDword(info.logBlockNbr), true)
    else if cmd == GET_SECTOR_SIZE then
      IoctlOutcome(ResOk, WroteWord((info.logBlockSize as int % 0x1_0000) as uint16), true)
    else if cmd == GET_BLOCK_SIZE then
      IoctlOutcome(ResOk, WroteDword(info.logBlockSize / SD_DEFAULT_BLOCK_SIZE), true)
    else IoctlOutcome(ResParErr, Untouched, false)
  }

  /** On a ready drive each query command stores the live card value: the sector
      count as a `DWORD`, the sector size truncated to a `WORD`, and the erase
      block size as the number of whole 512-byte units in a sector. */
  lemma IoctlStoresCardInfo(stat: DStatus, cmd: uint8, info: CardInfo)
    requires Ready(stat)
    ensures var o := Ioctl(stat, cmd, info);
      && (cmd == CTRL_SYNC ==> o.out == Untouched)
      && (cmd == GET_SECTOR_COUNT ==> o.out == WroteDword(info.logBlockNbr))
      && (cmd == GET_SECTOR_SIZE ==>
            && o.out.WroteWord?
            && o.out.word as int == info.logBlockSize as int % 0x1_0000
            && (info.logBlockSize < 0x1_0000 ==> o.out.word as int == info.logBlockSize as int))
      && (cmd == GET_BLOCK_SIZE ==>
            o.out.WroteDword? &&
            o.out.dword as int * 512 <= info.logBlockSize as int < o.out.dword as int * 512 + 512)
  {
  }

  /** A 4096-byte sector is reported as an erase block of 8 units. */
  lemma BlockSizeOf4096(stat: DStatus, n: uint32)
    requires Ready(stat)
    ensures Ioctl(stat, GET_BLOCK_SIZE, CardInfo(n, 4096)) == IoctlOutcome(ResOk, WroteDword(8), true)
  {
  }
}
