/** Enumerations, exceptions and call outcomes shared by the whole Object Transaction Service model. */
module OtsTypes {

  datatype Option<+T> = None | Some(value: T)

  datatype Status =
    | StatusActive
    | StatusMarkedRollback
    | StatusPrepared
    | StatusCommitted
    | StatusRolledBack
    | StatusUnknown
    | StatusNoTransaction
    | StatusPreparing
    | StatusCommitting
    | StatusRollingBack

  datatype Vote = VoteCommit | VoteRollback | VoteReadOnly

  datatype ResourceVote =
    | RvVoteCommit
    | RvVoteRollback
    | RvVoteReadOnly
    | RvNotPrepared
    | RvCommitted
    | RvRolledBack

  /** CORBA system exceptions. The coordinator only tells the first two from the rest. */
  datatype SystemError = ObjectNotExist | CommFailure | OtherSystemError

  datatype Exception =
    | TransactionRolledBack
    | HeuristicHazard
    | HeuristicRollback
    | NotPrepared
    | Inactive
    | WrongTransaction
    | InvalidTransaction
    | SystemException(error: SystemError)

  /** How an operation ends for its caller. `Blocked` is a busy-wait that is never left. */
  datatype Outcome = Returned | Raised(ex: Exception) | Blocked

  /** An object reference to a resource, and one to a synchronization object. */
  type Ref = nat
  type Sync = nat

  newtype int32 = x: int | -0x8000_0000 <= x < 0x8000_0000

  /** The commands a participant passes to the database. */
  datatype Command = XaPrepare | XaCommit | XaRollback

  /** The answers the database would give if asked now. */
  datatype Database = Database(prepareResult: int32, commitOk: bool, beginOk: bool)

  /** The requests of the Resource interface. */
  datatype Request =
    | Prepare
    | Commit
    | Rollback
    | CommitOnePhase
    | Forget
    | BeginTrans
    | SetRecoveryCoordinator(rc: nat)

  /** What the sender of a request sees. `Hung` means that no reply ever comes. */
  datatype Reply =
    | Voted(vote: Vote)
    | Began(ok: bool)
    | Done
    | Refused(ex: Exception)
    | Hung
    | Failed(error: SystemError)

  /** What the network does with one request. */
  datatype Fate =
    | Delivered(db: Database)
    | ReplyLost(db: Database, error: SystemError)
    | NotExecuted(error: SystemError)

  /** The environment: what happens to the message that would be the n-th entry of a history. */
  type Fates = nat -> Fate

  /** The two errors that the first prepare, commit and rollback passes handle themselves. */
  predicate Tolerated(e: SystemError) {
    e == ObjectNotExist || e == CommFailure
  }

  /** What a reply that is not handled on the spot does to the operation that asked. */
  function Escape(reply: Reply): Outcome {
    match reply
    case Refused(ex) => Raised(ex)
    case Failed(e) => Raised(SystemException(e))
    case Hung => Blocked
    case Voted(_) => Returned
    case Began(_) => Returned
    case Done => Returned
  }
}
