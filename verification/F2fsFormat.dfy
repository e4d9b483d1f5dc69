/** Sizes and addresses of the F2FS slot image. */
module F2fsFormat {
  import opened Results

  const BLOCK := 4096
  const BLOCKS_PER_SEG := 32
  const MIN_BYTES := 4 * 1024 * 1024

  // Block addresses of the areas: checkpoints, segment table, node table, summaries, main area.
  const CP := 1
  const SIT := CP + 2 * BLOCKS_PER_SEG
  const NAT := SIT + 2 * BLOCKS_PER_SEG
  const SSA := NAT + 2 * BLOCKS_PER_SEG
  const SSA_BLOCKS := 2 * BLOCKS_PER_SEG
  const MAIN := SSA + SSA_BLOCKS

  const SUMMARY_ENTRY := 7
  const NAT_ENTRY := 9
  const NATS_PER_BLOCK := BLOCK / NAT_ENTRY
  const VALID_MAP := 64
  const SIT_ENTRY := 2 + VALID_MAP + 8
  const SITS_PER_BLOCK := BLOCK / SIT_ENTRY
  const NODE_OFS := 0xFFFF

  const ROOT_INO := 1

  const I_INLINE := 3
  const I_SIZE := 16
  const I_NLINK := 24
  const I_ADDR := 360

  datatype Error =
    | BadImageSize
    | MainTooSmall
    | SsaTooSmall
    | SitTooSmall
    | Exhausted
    | DoubleAllocation
    | SummaryOverflow
    | NotOneBlock
    | OutOfRange
    | MissingKey
    | NotADirectory
    | RootPath
    | DuplicatePath

  type Result<T> = Fallible<T, Error>
}
