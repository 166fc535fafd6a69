/** The types and codes that the FatFs disk-I/O layer, the STM32 SD board-support
    package and the C compiler give to the SD adapter: fixed-width unsigned
    integers, the drive status byte, the result codes and the control commands. */
module Diskio {

  newtype uint8 = x: int | 0 <= x < 0x100
  newtype uint16 = x: int | 0 <= x < 0x1_0000
  newtype uint32 = x: int | 0 <= x < 0x1_0000_0000

  const UINT32_MODULUS: int := 0x1_0000_0000

  /** `DSTATUS`: a byte of flag bits; the adapter only ever uses `STA_NOINIT`. */
  type DStatus = bv8

  const STA_NOINIT: DStatus := 0x01

  /** `DRESULT`, in the order FatFs numbers it (0 to 4). */
  datatype DResult = ResOk | ResError | ResWrPrt | ResNotRdy | ResParErr

  /** Control commands of `disk_ioctl`. */
  const CTRL_SYNC: uint8 := 0
  const GET_SECTOR_COUNT: uint8 := 1
  const GET_SECTOR_SIZE: uint8 := 2
  const GET_BLOCK_SIZE: uint8 := 3

  /** Board-support return codes: `MSD_OK` for calls that succeeded, and the
      card-state answer `SD_TRANSFER_OK` (both are 0 in the BSP header). */
  const MSD_OK: uint8 := 0
  const SD_TRANSFER_OK: uint8 := 0

  /** Size of one SD block as the BSP defines `BLOCKSIZE`. */
  const BLOCKSIZE: uint32 := 512

  /** `SD_DEFAULT_BLOCK_SIZE`: the unit in which the erase block size is reported. */
  const SD_DEFAULT_BLOCK_SIZE: uint32 := 512

  /** `SD_TIMEOUT`: 30 seconds, in kernel ticks of one millisecond. */
  const SD_TIMEOUT: uint32 := 30 * 1000

  /** The two completion tags posted by the interrupt callbacks, and the queue's capacity. */
  const READ_CPLT_MSG: int := 1
  const WRITE_CPLT_MSG: int := 2
  const QUEUE_SIZE: nat := 10

  /** What a block-transfer call into the BSP was handed. */
  datatype BlockRequest = BlockRequest(buff: uint32, sector: uint32, count: uint32)
}
