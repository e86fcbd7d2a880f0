/** The status codes (sdk/include/zizium/status.h) that the modelled operations return. */
module Status {
  datatype Status =
    | Success
    | Pending
    | NotFound
    | AccessDenied
    | InvalidHandle
    | InvalidArgument
    | BadImageFormat
    | NotImplemented
    | DeviceError
    | Timeout
    | BufferTooSmall
    | InvalidEncoding
    | ChecksumMismatch
    | CorruptFilesystem
    | InvalidState
    | OutOfBounds
    | MemoryCorruption
    | InvalidUserBuffer
    | AddressConflict
    | ProcessTerminated
    | ImageRelocationFailed
    | ImageDependencyCycle
    | ImageImportNotFound
    | HandleTableFull
    | QueueFull
    | PeerClosed
    | RecoveryRequired
    | NoMemory
    | AlignmentError
    | AlreadyExists
    | InvalidPath
  {
    predicate Ok() { Success? || Pending? }
    predicate Failed() { !Ok() }
  }

  type Failure = s: Status | s.Failed() witness InvalidState

  datatype Option<+T> = None | Some(value: T)

  datatype Checked<+T> = Ok(value: T) | Err(status: Failure)
}
