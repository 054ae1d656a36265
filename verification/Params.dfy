/**
 The limits of `param.h`.
 */
module Params {

  const NPROC: nat := 64
  const MAXOPBLOCKS: nat := 10
  const LOGSIZE: nat := 3 * MAXOPBLOCKS
  const NBUF: nat := 3 * MAXOPBLOCKS
  const MAX_TICKETS_PER_PROCESS: nat := 1000
}
