/** Why an operation on a path failed. */
module OpFailures {

  datatype Disconnection = NotSent | NoAnswer

  /** The reason of another failure: the system's, or the created directories that were left behind. */
  datatype IoReason = SystemReason | LeftBehind(dirs: seq<seq<string>>)

  datatype OpFailure =
    | NotFound
    | NotADirectory
    | PermissionDenied
    | TooLarge(size: nat, limit: nat)
    | Io(reason: IoReason)
    | Disconnected(how: Disconnection)
    | RootGone
}
