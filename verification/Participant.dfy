/** The PostgreSQL participant: its status machine, and what no sequence of calls can make it do. */
module Participants {
  import opened OtsTypes

  /** (Oid)(-1) */
  const DISABLED_TRANSACTION_ID: nat := 0xFFFF_FFFF

  datatype Participant = Participant(
    status: Status,
    vote: Vote,
    transactionId: nat,
    recoveryCoordinator: Option<nat>,
    commands: seq<Command>,
    applied: bool)  // the database has carried out an xacommit

  /** A participant as its constructors leave it; the transaction id is not initialised. */
  predicate Fresh(p: Participant) {
    p.status == StatusActive && p.vote == VoteRollback && p.commands == [] && !p.applied
  }

  /** Conversion of a C int to the unsigned 32-bit Oid. */
  function ToOid(x: int32): nat {
    (x as int) % 0x1_0000_0000
  }

  function ClassifyVote(prepareResult: int32): Vote {
    if prepareResult == -1 then VoteRollback
    else if prepareResult == 0 then VoteReadOnly
    else VoteCommit
  }

  /** A loop on the status that no other assignment can end is left at once or never. */
  predicate LeavesWait(current: Status, awaited: Status) {
    current == awaited
  }

  function PrepareOf(p: Participant, db: Database): (Participant, Reply) {
    match p.status
    case StatusActive =>
      var vote := ClassifyVote(db.prepareResult);
      var id := if vote == VoteCommit then ToOid(db.prepareResult) else DISABLED_TRANSACTION_ID;
      (p.(status := StatusPrepared, vote := vote, transactionId := id, commands := p.commands + [XaPrepare]),
       Voted(vote))
    case StatusRollingBack =>
      if LeavesWait(p.status, StatusRolledBack) then (p.(vote := VoteRollback), Voted(VoteRollback)) else (p, Hung)
    case _ =>
      (p.(vote := VoteRollback), Voted(VoteRollback))
  }

  function RollbackOf(p: Participant): (Participant, Reply) {
    match p.status
    case StatusRollingBack =>
      (p, if LeavesWait(p.status, StatusRolledBack) then Done else Hung)
    case StatusActive | StatusPrepared =>
      (p.(status := StatusRollingBack, commands := p.commands + [XaRollback]), Done)
    case _ =>
      (p, Done)
  }

  function CommitOf(p: Participant, db: Database): (Participant, Reply) {
    match p.status
    case StatusCommitting =>
      (p, if LeavesWait(p.status, StatusCommitting) then Done else Hung)
    case StatusActive | StatusPreparing =>
      (p, Refused(NotPrepared))
    case StatusRollingBack =>
      (p, if LeavesWait(p.status, StatusRolledBack) then Refused(HeuristicRollback) else Hung)
    case StatusRolledBack =>
      (p, Refused(HeuristicRollback))
    case StatusPrepared =>
      (p.(status := StatusCommitting, commands := p.commands + [XaCommit], applied := db.commitOk),
       if db.commitOk then Done else Refused(HeuristicRollback))
    case _ =>
      (p, Done)
  }

  function CommitOnePhaseOf(p: Participant, db: Database): (Participant, Reply) {
    var (p1, reply) := PrepareOf(p, db);
    match reply
    case Voted(VoteCommit) => CommitOf(p1, db)
    case Voted(VoteReadOnly) => (p1, Done)
    case Voted(VoteRollback) =>
      var (p2, reply2) := RollbackOf(p1);
      (p2, if reply2 == Done then Refused(TransactionRolledBack) else reply2)
    case _ => (p1, reply)
  }

  function Serve(p: Participant, req: Request, db: Database): (Participant, Reply) {
    match req
    case Prepare => PrepareOf(p, db)
    case Commit => CommitOf(p, db)
    case Rollback => RollbackOf(p)
    case CommitOnePhase => CommitOnePhaseOf(p, db)
    case Forget => (p, Done)
    case BeginTrans => (p, Began(db.beginOk))
    case SetRecoveryCoordinator(rc) => (p.(recoveryCoordinator := Some(rc)), Done)
  }

  /** The commands that one call adds. */
  function Issued(p: Participant, req: Request, db: Database): (cmds: seq<Command>)
    ensures Serve(p, req, db).0.commands == p.commands + cmds
  {
    match req
    case Prepare => if p.status == StatusActive then [XaPrepare] else []
    case Commit => if p.status == StatusPrepared then [XaCommit] else []
    case Rollback => if p.status == StatusActive || p.status == StatusPrepared then [XaRollback] else []
    case CommitOnePhase =>
      if p.status == StatusPrepared then [XaRollback]
      else if p.status != StatusActive then []
      else (match ClassifyVote(db.prepareResult)
            case VoteCommit => [XaPrepare, XaCommit]
            case VoteReadOnly => [XaPrepare]
            case VoteRollback => [XaPrepare, XaRollback])
    case _ => []
  }

  // ------------------------------------------------------------------
  // Safety of one participant over every sequence of calls
  // ------------------------------------------------------------------

  /** The only states a participant can be in, each with the commands that lead there. */
  predicate Consistent(p: Participant) {
    && (p.applied ==> p.status == StatusCommitting)
    && match p.status
    case StatusActive => p.commands == []
    case StatusPrepared => p.commands == [XaPrepare]
    case StatusCommitting => p.commands == [XaPrepare, XaCommit]
    case StatusRollingBack => p.commands == [XaRollback] || p.commands == [XaPrepare, XaRollback]
    case _ => false
  }

  lemma ServeKeepsConsistent(p: Participant, req: Request, db: Database)
    requires Consistent(p)
    ensures Consistent(Serve(p, req, db).0)
  {
    match req
    case CommitOnePhase => assert Consistent(PrepareOf(p, db).0);
    case _ =>
  }

  datatype Invocation = Invocation(req: Request, db: Database)

  function ServeAll(p: Participant, calls: seq<Invocation>): Participant
    decreases |calls|
  {
    if calls == [] then p else ServeAll(Serve(p, calls[0].req, calls[0].db).0, calls[1..])
  }

  lemma {:induction false} ServeAllKeepsConsistent(p: Participant, calls: seq<Invocation>)
    requires Consistent(p)
    ensures Consistent(ServeAll(p, calls))
    decreases |calls|
  {
    if calls != [] {
      ServeKeepsConsistent(p, calls[0].req, calls[0].db);
      ServeAllKeepsConsistent(Serve(p, calls[0].req, calls[0].db).0, calls[1..]);
    }
  }

  /** Whatever is called, in whatever order and with whatever database answers: at most one of
      xacommit and xarollback is issued, that command is the last one, and an xacommit directly
      follows the only xaprepare. */
  lemma ParticipantIssuesOneVerdict(p: Participant, calls: seq<Invocation>)
    requires Fresh(p)
    ensures var cmds := ServeAll(p, calls).commands;
            && multiset(cmds)[XaCommit] + multiset(cmds)[XaRollback] <= 1
            && (XaCommit in cmds ==> cmds == [XaPrepare, XaCommit])
            && (XaRollback in cmds ==> cmds[|cmds| - 1] == XaRollback)
  {
    ServeAllKeepsConsistent(p, calls);
  }

  /** After its verdict a participant never issues another command. */
  lemma {:induction false} VerdictIsFinal(p: Participant, calls: seq<Invocation>)
    requires Consistent(p) && (p.status == StatusCommitting || p.status == StatusRollingBack)
    ensures var q := ServeAll(p, calls);
            q.commands == p.commands && q.status == p.status && q.applied == p.applied
    decreases |calls|
  {
    if calls != [] {
      var q := Serve(p, calls[0].req, calls[0].db).0;
      assert q.commands == p.commands && q.status == p.status && q.applied == p.applied;
      VerdictIsFinal(q, calls[1..]);
    }
  }

  /** The stored id is a live transaction id exactly when the first prepare was answered with a
      commit vote: no int the database returns for a commit vote converts to the disabled id. */
  lemma TransactionIdIsLiveIffCommitVote(p: Participant, db: Database)
    requires Fresh(p)
    ensures var (q, reply) := PrepareOf(p, db);
            && (q.transactionId != DISABLED_TRANSACTION_ID <==> reply == Voted(VoteCommit))
            && q.transactionId < 0x1_0000_0000
  {
    var x := db.prepareResult as int;
    if x < -1 {
      assert x % 0x1_0000_0000 == x + 0x1_0000_0000;
    }
  }

  // ------------------------------------------------------------------
  // The answers, in terms of what has been passed to the database
  // ------------------------------------------------------------------

  /** The unsigned value of a transaction id that comes as a signed int. */
  function LiveId(prepareResult: int32): nat
    requires prepareResult !in {-1, 0}
  {
    if prepareResult > 0 then prepareResult as int else prepareResult as int + 0x1_0000_0000
  }

  /** After any calls: a first prepare votes rollback on -1, read-only on 0 and commit on every other
      result, and only a commit vote stores the result as the id; a later one asks the database nothing
      and votes rollback, or waits for ever after an xarollback. */
  lemma PrepareFollowsCommands(p: Participant, calls: seq<Invocation>, db: Database)
    requires Fresh(p)
    ensures var q := ServeAll(p, calls); var (u, reply) := Serve(q, Prepare, db); var x := db.prepareResult;
            && (q.commands == [] ==>
                  && u.commands == [XaPrepare] && u.vote == reply.vote
                  && (reply == Voted(VoteRollback) <==> x == -1) && (reply == Voted(VoteReadOnly) <==> x == 0)
                  && (reply == Voted(VoteCommit) <==> x !in {-1, 0})
                  && u.transactionId == if x in {-1, 0} then 0xFFFF_FFFF else LiveId(x))
            && (q.commands != [] ==>
                  && u.commands == q.commands && u.transactionId == q.transactionId
                  && (reply == Hung <==> XaRollback in q.commands)
                  && (reply != Hung ==> reply == Voted(VoteRollback) && u.vote == VoteRollback))
  {
    ServeAllKeepsConsistent(p, calls);
  }

  /** The id that the first prepare has stored stays, whatever is called. */
  lemma {:induction false} IdIsKept(p: Participant, calls: seq<Invocation>)
    requires Consistent(p) && p.commands != []
    ensures ServeAll(p, calls).transactionId == p.transactionId
    decreases |calls|
  {
    if calls != [] {
      ServeKeepsConsistent(p, calls[0].req, calls[0].db);
      IdIsKept(Serve(p, calls[0].req, calls[0].db).0, calls[1..]);
    }
  }

  /** After any calls: commit issues xacommit exactly as the command that follows a lone xaprepare, and
      answers HeuristicRollback exactly if that fails; before it answers NotPrepared, after it normally,
      and after an xarollback never. */
  lemma CommitFollowsCommands(p: Participant, calls: seq<Invocation>, db: Database)
    requires Fresh(p)
    ensures var q := ServeAll(p, calls); var (u, reply) := Serve(q, Commit, db);
            && u.commands == q.commands + (if q.commands == [XaPrepare] then [XaCommit] else [])
            && (u.applied <==> q.applied || (q.commands == [XaPrepare] && db.commitOk))
            && (reply == Refused(NotPrepared) <==> q.commands == [])
            && (reply == Refused(HeuristicRollback) <==> q.commands == [XaPrepare] && !db.commitOk)
            && (reply == Hung <==> XaRollback in q.commands)
            && (reply == Done <==> XaCommit in q.commands || (q.commands == [XaPrepare] && db.commitOk))
  {
    ServeAllKeepsConsistent(p, calls);
  }

  /** After any calls: rollback issues xarollback unless a verdict was issued before, and answers
      normally, but never after an xarollback. */
  lemma RollbackFollowsCommands(p: Participant, calls: seq<Invocation>, db: Database)
    requires Fresh(p)
    ensures var q := ServeAll(p, calls); var (u, reply) := Serve(q, Rollback, db);
            && u.commands ==
                 q.commands + (if XaCommit in q.commands || XaRollback in q.commands then [] else [XaRollback])
            && u.applied == q.applied && reply == if XaRollback in q.commands then Hung else Done
  {
    ServeAllKeepsConsistent(p, calls);
  }

  /** After any calls: what a one-phase commit passes to the database, and how it answers. One that
      comes too late rolls a prepared participant back and says so, and says so of a committed one too. */
  lemma OnePhaseFollowsCommands(p: Participant, calls: seq<Invocation>, db: Database)
    requires Fresh(p)
    ensures var q := ServeAll(p, calls); var (u, reply) := Serve(q, CommitOnePhase, db); var x := db.prepareResult;
            && u.commands == q.commands + LoneCommands(q.commands, x) && reply == LoneReply(q.commands, db)
            && (u.applied <==> q.applied || (q.commands == [] && x !in {-1, 0} && db.commitOk))
  {
    ServeAllKeepsConsistent(p, calls);
    OnePhaseByCommands(ServeAll(p, calls), db);
  }

  function LoneCommands(before: seq<Command>, x: int32): seq<Command> {
    if before == [XaPrepare] then [XaRollback]
    else if before != [] then []
    else if x == -1 then [XaPrepare, XaRollback]
    else if x == 0 then [XaPrepare]
    else [XaPrepare, XaCommit]
  }

  function LoneReply(before: seq<Command>, db: Database): Reply {
    if XaRollback in before then Hung
    else if before != [] || db.prepareResult == -1 then Refused(TransactionRolledBack)
    else if db.prepareResult == 0 || db.commitOk then Done
    else Refused(HeuristicRollback)
  }

  lemma OnePhaseByCommands(p: Participant, db: Database)
    requires Consistent(p)
    ensures var (u, reply) := CommitOnePhaseOf(p, db);
            && u.commands == p.commands + LoneCommands(p.commands, db.prepareResult)
            && reply == LoneReply(p.commands, db)
            && (u.applied <==> p.applied || (p.commands == [] && db.prepareResult !in {-1, 0} && db.commitOk))
  {
  }

  // ------------------------------------------------------------------
  // The servant object
  // ------------------------------------------------------------------

  class PgResource {
    var status: Status
    var vote: Vote
    var transactionId: nat
    var recoveryCoordinator: Option<nat>
    var commands: seq<Command>  // what has been passed to PQexec so far
    var applied: bool           // the result of xacommit was PGRES_COMMAND_OK

    function State(): Participant
      reads this
    {
      Participant(status, vote, transactionId, recoveryCoordinator, commands, applied)
    }

    constructor ()
      ensures Fresh(State())
    {
      status, vote, transactionId := StatusActive, VoteRollback, *;
      recoveryCoordinator, commands, applied := None, [], false;
    }

    method PgPrepare(db: Database) returns (reply: Reply)
      modifies this
      ensures (State(), reply) == PrepareOf(old(State()), db)
    {
      match status {
        case StatusActive =>
          status := StatusPreparing;
          commands := commands + [XaPrepare];
          if db.prepareResult == -1 {
            vote, transactionId := VoteRollback, DISABLED_TRANSACTION_ID;
          } else if db.prepareResult == 0 {
            vote, transactionId := VoteReadOnly, DISABLED_TRANSACTION_ID;
          } else {
            vote, transactionId := VoteCommit, ToOid(db.prepareResult);
          }
          status := StatusPrepared;
        case StatusRolledBack =>
          vote := VoteRollback;
        case StatusRollingBack =>
          return Hung;  // waits for RolledBack
        case _ =>
          vote := VoteRollback;
      }
      reply := Voted(vote);
    }

    method PgRollback() returns (reply: Reply)
      modifies this
      ensures (State(), reply) == RollbackOf(old(State()))
    {
      match status {
        case StatusRollingBack =>
          return Hung;  // waits for RolledBack
        case StatusActive | StatusPrepared =>
          status := StatusRollingBack;
          commands := commands + [XaRollback];
        case _ =>
      }
      reply := Done;
    }

    method PgCommit(db: Database) returns (reply: Reply)
      modifies this
      ensures (State(), reply) == CommitOf(old(State()), db)
    {
      match status {
        case StatusCommitting =>
          // waits for Committing, which it already is
        case StatusActive | StatusPreparing =>
          return Refused(NotPrepared);
        case StatusRollingBack =>
          return Hung;  // waits for RolledBack
        case StatusRolledBack =>
          return Refused(HeuristicRollback);
        case StatusPrepared =>
          status := StatusCommitting;
          commands := commands + [XaCommit];
          applied := db.commitOk;
          if !db.commitOk {
            return Refused(HeuristicRollback);
          }
        case _ =>
      }
      reply := Done;
    }

    method PgCommitOnePhase(db: Database) returns (reply: Reply)
      modifies this
      ensures (State(), reply) == CommitOnePhaseOf(old(State()), db)
    {
      reply := PgPrepare(db);
      match reply {
        case Voted(VoteCommit) =>
          reply := PgCommit(db);
        case Voted(VoteReadOnly) =>
          reply := Done;
        case Voted(VoteRollback) =>
          reply := PgRollback();
          if reply == Done {
            reply := Refused(TransactionRolledBack);
          }
        case _ =>
      }
    }

    method PgSetRecoveryCoordinator(rc: nat)
      modifies this`recoveryCoordinator
      ensures State() == old(State()).(recoveryCoordinator := Some(rc))
    {
      recoveryCoordinator := Some(rc);
    }

    /** The dispatch that the skeleton does for an incoming request. */
    method Dispatch(req: Request, db: Database) returns (reply: Reply)
      modifies this
      ensures (State(), reply) == Serve(old(State()), req, db)
    {
      match req {
        case Prepare => reply := PgPrepare(db);
        case Commit => reply := PgCommit(db);
        case Rollback => reply := PgRollback();
        case CommitOnePhase => reply := PgCommitOnePhase(db);
        case Forget => reply := Done;
        case BeginTrans => reply := Began(db.beginOk);
        case SetRecoveryCoordinator(rc) =>
          PgSetRecoveryCoordinator(rc);
          reply := Done;
      }
    }
  }
}
