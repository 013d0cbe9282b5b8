/** What each coordinator operation does, as functions on the state of one transaction: the
    coordinator's fields, the history of what it did, and the participants it talks to. */
module CoordinatorSpec {
  import opened OtsTypes
  import opened Participants

  /** One element of the resource list. */
  datatype Entry = Entry(r: Ref, rc: nat, rv: ResourceVote)

  /** One step of the history, in the order the steps were taken. */
  datatype Event =
    | Joined(r: Ref)
    | SyncJoined(x: Sync)
    | StatusSet(to: Status)
    | Called(req: Request, r: Ref, reply: Reply, issued: seq<Command>)
    | BeforeCompletion(x: Sync)
    | AfterCompletion(x: Sync, st: Status)

  datatype Sys = Sys(
    status: Status,
    entries: seq<Entry>,
    syncs: seq<Sync>,
    nextRc: nat,
    trace: seq<Event>,
    parts: map<Ref, Participant>)

  /** A new coordinator among participants that have not been used yet. */
  predicate Initial(s: Sys) {
    && s.status == StatusActive && s.entries == [] && s.syncs == [] && s.trace == []
    && forall r | r in s.parts :: Fresh(s.parts[r])
  }

  function NewTransaction(parts: map<Ref, Participant>): (s: Sys)
    ensures (forall r | r in parts :: Fresh(parts[r])) <==> Initial(s)
  {
    Sys(StatusActive, [], [], 0, [], parts)
  }

  function Emit(s: Sys, e: Event): Sys {
    s.(trace := s.trace + [e])
  }

  function SetStatus(s: Sys, to: Status): Sys {
    Emit(s.(status := to), StatusSet(to))
  }

  /** A request to one resource. A reference that no object answers to gives OBJECT_NOT_EXIST. */
  function Call(s: Sys, fates: Fates, req: Request, r: Ref): (res: (Sys, Reply))
    ensures res.0.status == s.status && res.0.entries == s.entries && res.0.syncs == s.syncs && res.0.nextRc == s.nextRc
  {
    var fate := if r in s.parts then fates(|s.trace|) else NotExecuted(ObjectNotExist);
    match fate
    case NotExecuted(e) =>
      (Emit(s, Called(req, r, Failed(e), [])), Failed(e))
    case Delivered(db) =>
      var (p, reply) := Serve(s.parts[r], req, db);
      (Emit(s.(parts := s.parts[r := p]), Called(req, r, reply, Issued(s.parts[r], req, db))), reply)
    case ReplyLost(db, e) =>
      var p := Serve(s.parts[r], req, db).0;
      (Emit(s.(parts := s.parts[r := p]), Called(req, r, Failed(e), Issued(s.parts[r], req, db))), Failed(e))
  }

  // ------------------------------------------------------------------
  // Registration
  // ------------------------------------------------------------------

  /** The first position at which a resource is listed, or the length of the list. */
  function Find(entries: seq<Entry>, r: Ref): (i: nat)
    ensures i <= |entries|
    ensures i < |entries| ==> entries[i].r == r
    ensures forall j | 0 <= j < i :: entries[j].r != r
  {
    if entries == [] || entries[0].r == r then 0 else 1 + Find(entries[1..], r)
  }

  function Register(s: Sys, fates: Fates, r: Ref): (Sys, Outcome, Option<nat>) {
    match s.status
    case StatusActive =>
      var i := Find(s.entries, r);
      if i < |s.entries| then (s, Returned, Some(s.entries[i].rc))
      else Enlist(s, fates, r)
    case StatusMarkedRollback => (s, Raised(TransactionRolledBack), None)
    case _ => (s, Raised(Inactive), None)
  }

  function Enlist(s: Sys, fates: Fates, r: Ref): (Sys, Outcome, Option<nat>) {
    var (s1, forgot) := Call(s, fates, Forget, r);
    if forgot.Failed? then (s1, Escape(forgot), None) else
    var (s2, began) := Call(s1, fates, BeginTrans, r);
    if began.Failed? then (s2, Escape(began), None) else
    if began == Began(false) then (s2, Raised(Inactive), None) else
    Introduce(s2, fates, r)
  }

  /** Creates a recovery coordinator, tells the resource, and lists it. */
  function Introduce(s: Sys, fates: Fates, r: Ref): (Sys, Outcome, Option<nat>) {
    var rc := s.nextRc;
    var (s1, told) := Call(s.(nextRc := rc + 1), fates, SetRecoveryCoordinator(rc), r);
    if told.Failed? then (s1, Escape(told), None) else
    (Emit(s1.(entries := s1.entries + [Entry(r, rc, RvNotPrepared)]), Joined(r)), Returned, Some(rc))
  }

  function RegisterSync(s: Sys, x: Sync): (Sys, Outcome) {
    if s.status != StatusActive then (s, Raised(Inactive))
    else (Emit(s.(syncs := s.syncs + [x]), SyncJoined(x)), Returned)
  }

  function RollbackOnly(s: Sys): (Sys, Outcome) {
    match s.status
    case StatusActive => (SetStatus(s, StatusMarkedRollback), Returned)
    case StatusMarkedRollback => (s, Returned)
    case _ => (s, Raised(Inactive))
  }

  /** RecoveryCoordinator::replay_completion: None stands for the NotPrepared exception. */
  function ReplayCompletion(status: Status): Option<Status> {
    if status == StatusActive || status == StatusPreparing then None else Some(status)
  }

  // ------------------------------------------------------------------
  // Synchronization objects
  // ------------------------------------------------------------------

  function BeforeFrom(s: Sys, i: nat): Sys
    decreases |s.syncs| - i
  {
    if i >= |s.syncs| then s else BeforeFrom(Emit(s, BeforeCompletion(s.syncs[i])), i + 1)
  }

  function AfterFrom(s: Sys, i: nat): Sys
    decreases |s.syncs| - i
  {
    if i >= |s.syncs| then s else AfterFrom(Emit(s, AfterCompletion(s.syncs[i], s.status)), i + 1)
  }

  // ------------------------------------------------------------------
  // First phase
  // ------------------------------------------------------------------

  function SetVoteAt(s: Sys, i: nat, rv: ResourceVote): Sys
    requires i < |s.entries|
  {
    s.(entries := s.entries[i := s.entries[i].(rv := rv)])
  }

  /** A prepare call that fails in a tolerated way counts as a rollback vote. */
  function VoteCounted(reply: Reply): Option<Vote> {
    match reply
    case Voted(vote) => Some(vote)
    case Failed(e) => if Tolerated(e) then Some(VoteRollback) else None
    case _ => None
  }

  function PrepareFrom(s: Sys, fates: Fates, i: nat): (Sys, Outcome)
    decreases |s.entries| - i
  {
    if i >= |s.entries| || s.status == StatusMarkedRollback then (s, Returned)
    else
      var (s1, reply) := Call(s, fates, Prepare, s.entries[i].r);
      match VoteCounted(reply)
      case None => (s1, Escape(reply))
      case Some(VoteCommit) => PrepareFrom(SetVoteAt(s1, i, RvVoteCommit), fates, i + 1)
      case Some(VoteReadOnly) => PrepareFrom(SetVoteAt(s1, i, RvVoteReadOnly), fates, i + 1)
      case Some(VoteRollback) =>
        PrepareFrom(SetStatus(SetVoteAt(s1, i, RvRolledBack), StatusMarkedRollback), fates, i + 1)
  }

  // ------------------------------------------------------------------
  // Second phase: the four loops over the list differ in whom they contact, in the request,
  // and in whether they handle the tolerated errors themselves.
  // ------------------------------------------------------------------

  datatype Pass = FirstCommit | RetryCommit | FirstRollback | RetryRollback

  predicate Commits(pass: Pass) {
    pass == FirstCommit || pass == RetryCommit
  }

  predicate Eligible(pass: Pass, rv: ResourceVote) {
    match pass
    case FirstCommit => rv != RvVoteRollback
    case RetryCommit => rv == RvVoteCommit
    case FirstRollback | RetryRollback => rv == RvVoteCommit || rv == RvNotPrepared
  }

  function PassRequest(pass: Pass): Request {
    if Commits(pass) then Commit else Rollback
  }

  function Settled(pass: Pass): ResourceVote {
    if Commits(pass) then RvCommitted else RvRolledBack
  }

  predicate Forgiven(pass: Pass, reply: Reply) {
    (pass == FirstCommit || pass == FirstRollback) && reply.Failed? && Tolerated(reply.error)
  }

  /** change_resourcevote: searches the list for the resource. */
  function ChangeResourceVote(s: Sys, r: Ref, rv: ResourceVote): Sys {
    var i := Find(s.entries, r);
    if i < |s.entries| then SetVoteAt(s, i, rv) else s
  }

  /** Runs one pass from position i. The second result is the heuristics flag. */
  function Sweep(s: Sys, fates: Fates, pass: Pass, i: nat, heuristics: bool): (Sys, bool, Outcome)
    decreases |s.entries| - i
  {
    if i >= |s.entries| then (s, heuristics, Returned)
    else if !Eligible(pass, s.entries[i].rv) then Sweep(s, fates, pass, i + 1, heuristics)
    else
      var (s1, reply) := Call(s, fates, PassRequest(pass), s.entries[i].r);
      if reply == Done then
        Sweep(ChangeResourceVote(s1, s.entries[i].r, Settled(pass)), fates, pass, i + 1, heuristics)
      else if Forgiven(pass, reply) then Sweep(s1, fates, pass, i + 1, true)
      else (s1, heuristics, Escape(reply))
  }

  // ------------------------------------------------------------------
  // rollback and commit
  // ------------------------------------------------------------------

  function RollbackActive(s: Sys, fates: Fates): (Sys, Outcome) {
    var (s1, heuristics, end) := Sweep(SetStatus(s, StatusRollingBack), fates, FirstRollback, 0, false);
    if end != Returned then (s1, end) else
    var s2 := SetStatus(s1, StatusNoTransaction);
    if heuristics then (s2, Raised(HeuristicHazard)) else (AfterFrom(s2, 0), Returned)
  }

  function RollbackAgain(s: Sys, fates: Fates): (Sys, Outcome) {
    var (s1, _, end) := Sweep(s, fates, RetryRollback, 0, false);
    if end != Returned then (s1, end)
    else (AfterFrom(SetStatus(s1, StatusNoTransaction), 0), Returned)
  }

  function RollbackTransaction(s: Sys, fates: Fates): (Sys, Outcome) {
    match s.status
    case StatusActive | StatusMarkedRollback => RollbackActive(s, fates)
    case StatusCommitted => (s, Raised(WrongTransaction))
    case StatusNoTransaction => (s, Raised(InvalidTransaction))
    case StatusRollingBack => RollbackAgain(s, fates)
    case _ => (s, Returned)
  }

  /** The rollback inside commit: when it ends normally, commit still raises. */
  function RollbackInstead(s: Sys, fates: Fates): (Sys, Outcome) {
    var (s1, end) := RollbackTransaction(s, fates);
    (s1, if end == Returned then Raised(TransactionRolledBack) else end)
  }

  function CommitOnlyResource(s: Sys, fates: Fates, report: bool): (Sys, Outcome)
    requires |s.entries| == 1
  {
    var (s1, reply) := Call(s, fates, CommitOnePhase, s.entries[0].r);
    if reply.Failed? && Tolerated(reply.error) then
      (s1, if report then Raised(HeuristicHazard) else Returned)
    else (s1, Escape(reply))
  }

  /** The commit decision has been taken. */
  function CommitPrepared(s: Sys, fates: Fates, report: bool): (Sys, Outcome) {
    var (s1, heuristics, end) := Sweep(SetStatus(s, StatusCommitting), fates, FirstCommit, 0, false);
    if end != Returned then (s1, end) else
    var s2 := AfterFrom(SetStatus(s1, StatusNoTransaction), 0);
    (s2, if report && heuristics then Raised(HeuristicHazard) else Returned)
  }

  function TwoPhase(s: Sys, fates: Fates, report: bool): (Sys, Outcome) {
    var (s1, end) := PrepareFrom(SetStatus(s, StatusPreparing), fates, 0);
    if end != Returned then (s1, end)
    else if s1.status == StatusMarkedRollback then RollbackInstead(s1, fates)
    else CommitPrepared(s1, fates, report)
  }

  function CommitListed(s: Sys, fates: Fates, report: bool): (Sys, Outcome) {
    if |s.entries| == 0 then (SetStatus(s, StatusNoTransaction), Returned)
    else if |s.entries| == 1 then CommitOnlyResource(s, fates, report)
    else TwoPhase(s, fates, report)
  }

  function CommitActive(s: Sys, fates: Fates, report: bool): (Sys, Outcome) {
    CommitListed(BeforeFrom(s, 0), fates, report)
  }

  function CommitAgain(s: Sys, fates: Fates): (Sys, Outcome) {
    var (s1, _, end) := Sweep(s, fates, RetryCommit, 0, false);
    if end != Returned then (s1, end) else (SetStatus(s1, StatusNoTransaction), Returned)
  }

  function CommitTransaction(s: Sys, fates: Fates, report: bool): (Sys, Outcome) {
    match s.status
    case StatusActive => CommitActive(s, fates, report)
    case StatusMarkedRollback => RollbackInstead(s, fates)
    case StatusRolledBack => (s, Raised(TransactionRolledBack))
    case StatusCommitting => CommitAgain(s, fates)
    case StatusRollingBack =>
      (s, if LeavesWait(s.status, StatusRolledBack) then Raised(TransactionRolledBack) else Blocked)
    case _ => (s, Returned)
  }

  // ------------------------------------------------------------------
  // Runs: any sequence of calls by clients, in any environment
  // ------------------------------------------------------------------

  datatype Op =
    | OpRegister(r: Ref)
    | OpRegisterSync(x: Sync)
    | OpRollbackOnly
    | OpCommit(report: bool)
    | OpRollback

  function Step(s: Sys, fates: Fates, op: Op): (Sys, Outcome) {
    match op
    case OpRegister(r) => var (s1, end, _) := Register(s, fates, r); (s1, end)
    case OpRegisterSync(x) => RegisterSync(s, x)
    case OpRollbackOnly => RollbackOnly(s)
    case OpCommit(report) => CommitTransaction(s, fates, report)
    case OpRollback => RollbackTransaction(s, fates)
  }

  function Run(s: Sys, fates: Fates, ops: seq<Op>): Sys
    decreases |ops|
  {
    if ops == [] then s else Run(Step(s, fates, ops[0]).0, fates, ops[1..])
  }
}
