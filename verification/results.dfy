/** Outcomes shared by the operations. */
module Results {
  datatype Option<+T> = None | Some(value: T)

  /** The status codes the modelled operations return. */
  datatype Status =
    | Ok
    | InvalidArg
    | NotFound
    | DiskFull
    | OutOfMemory
    | AlreadyExists
    | Permission
    | Busy
    | Unsupported
    | Overflow
    | Corrupted
    | NotInitialized
    | InvalidFormat
    | ReadOnly
    | ProcessFailed
    | Interrupted
    | BadFilesystem
}
