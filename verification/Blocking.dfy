/** Busy-waits: when no operation can ever be caught in one. */
module Blocking {
  import opened OtsTypes
  import opened Participants
  import opened CoordinatorSpec
  import opened Protocol
  import opened Invariant
  import opened Runs
  import opened Passes
  import opened Outcomes

  /** Calls fail only with OBJECT_NOT_EXIST or COMM_FAILURE, and xacommit succeeds. */
  predicate Benign(fate: Fate) {
    match fate
    case Delivered(db) => db.commitOk
    case ReplyLost(db, e) => db.commitOk && Tolerated(e)
    case NotExecuted(e) => Tolerated(e)
  }

  ghost predicate AllBenign(fates: Fates) {
    forall n :: Benign(fates(n))
  }

  /** A request that a participant answers by waiting for StatusRolledBack, or would. */
  predicate EntersWait(v: View, e: Event) {
    e.Called? && !Enlists(e.req) && e.r in v.aborted
  }

  /** No participant has ever entered its wait. */
  predicate Waitless(trace: seq<Event>) {
    trace == [] ||
    (Waitless(trace[..|trace| - 1]) && !EntersWait(Read(trace[..|trace| - 1]), trace[|trace| - 1]))
  }

  lemma WaitlessExtended(trace: seq<Event>, e: Event)
    requires Waitless(trace) && !EntersWait(Read(trace), e)
    ensures Waitless(trace + [e])
  {
    assert (trace + [e])[..|trace|] == trace;
  }

  /** The list holds no resource whose participant is rolling back. */
  predicate NobodyAborted(s: Sys) {
    Read(s.trace).aborted == {}
  }

  /** An operation may begin: nothing hangs, and the last operation was not left half done. */
  predicate Ready(s: Sys) {
    && Resting(s) && Waitless(s.trace)
    && (s.status == StatusActive || s.status == StatusMarkedRollback || s.status == StatusNoTransaction)
    && (s.status != StatusNoTransaction ==> NobodyAborted(s))
  }

  /** A participant that is not rolling back answers, and does so in the expected way. */
  lemma ParticipantAnswers(p: Participant, req: Request, db: Database)
    requires Consistent(p) && p.status != StatusRollingBack && db.commitOk
    requires req == Commit ==> p.status == StatusPrepared
    ensures var reply := Serve(p, req, db).1;
            && reply != Hung && !reply.Failed?
            && (req == Prepare ==> reply.Voted?) && (req == Commit || req == Rollback ==> reply == Done)
  {
  }

  /** One request to a resource whose participant is not rolling back. */
  lemma BenignCall(s: Sys, fates: Fates, req: Request, r: Ref)
    requires Inv(s) && Waitless(s.trace) && AllBenign(fates) && r !in Read(s.trace).aborted
    requires req == Commit && r in s.parts ==> s.parts[r].status == StatusPrepared
    ensures var (t, reply) := Call(s, fates, req, r);
            && Waitless(t.trace) && reply != Hung && (reply.Failed? ==> Tolerated(reply.error))
            && (req == Prepare ==> VoteCounted(reply) != None)
            && (req == Commit || req == Rollback ==> reply == Done || reply.Failed?)
            && (forall x | x in s.parts && x != r :: x in t.parts && t.parts[x] == s.parts[x])
  {
    CallEffect(s, fates, req, r);
    WaitlessExtended(s.trace, CallEvent(s, fates, req, r));
    assert Benign(fates(|s.trace|));
    if r in s.parts {
      NotAborted(s, r);
      var p := s.parts[r];
      assert Consistent(p);
      hide Inv, Serve, Read, Waitless;
      match fates(|s.trace|)
      case Delivered(db) => ParticipantAnswers(p, req, db);
      case _ =>
    }
  }

  lemma NotAborted(s: Sys, r: Ref)
    requires Inv(s) && r in s.parts
    ensures r in Read(s.trace).aborted <==> s.parts[r].status == StatusRollingBack
  {
  }

  lemma Quietly(s: Sys, t: Sys, e: Event)
    requires Waitless(s.trace) && t.trace == s.trace + [e] && !e.Called?
    ensures Waitless(t.trace) && Read(t.trace).aborted == Read(s.trace).aborted
  {
    AcceptedExtended(s.trace, e);
    WaitlessExtended(s.trace, e);
  }

  lemma {:induction false} PrepareTerminates(s: Sys, fates: Fates, i: nat)
    requires Inv(s) && Waitless(s.trace) && AllBenign(fates) && NobodyAborted(s)
    requires s.status == StatusMarkedRollback
          || (s.status == StatusPreparing && Read(s.trace).favourable && |Read(s.trace).prepared| == i <= |s.entries|)
    ensures var (t, end) := PrepareFrom(s, fates, i);
            end == Returned && Waitless(t.trace) && NobodyAborted(t)
    decreases |s.entries| - i
  {
    hide Inv, Read, Call, Waitless;
    if i < |s.entries| && s.status != StatusMarkedRollback {
      PrepareStep(s, fates, i);
      BenignCall(s, fates, Prepare, s.entries[i].r);
      PrepareAbortsNobody(s, fates, i);
      var (t, reply) := Call(s, fates, Prepare, s.entries[i].r);
      match VoteCounted(reply)
      case Some(VoteCommit) => PrepareTerminates(SetVoteAt(t, i, RvVoteCommit), fates, i + 1);
      case Some(VoteReadOnly) => PrepareTerminates(SetVoteAt(t, i, RvVoteReadOnly), fates, i + 1);
      case Some(VoteRollback) =>
        var u := SetVoteAt(t, i, RvRolledBack);
        StepToMarked(u);
        Quietly(u, SetStatus(u, StatusMarkedRollback), StatusSet(StatusMarkedRollback));
        PrepareTerminates(SetStatus(u, StatusMarkedRollback), fates, i + 1);
    }
  }

  lemma PrepareAbortsNobody(s: Sys, fates: Fates, i: nat)
    requires Inv(s) && i < |s.entries|
    ensures Read(Call(s, fates, Prepare, s.entries[i].r).0.trace).aborted == Read(s.trace).aborted
  {
    var r := s.entries[i].r;
    CallEffect(s, fates, Prepare, r);
    AcceptedExtended(s.trace, CallEvent(s, fates, Prepare, r));
  }

  /** Everybody a pass still has to contact, from position i on, can answer. */
  predicate CanAnswer(s: Sys, pass: Pass, i: nat) {
    forall j | i <= j < |s.entries| && Eligible(pass, s.entries[j].rv) ::
      && s.entries[j].r in s.parts && s.parts[s.entries[j].r].status != StatusRollingBack
      && (Commits(pass) ==> s.parts[s.entries[j].r].status == StatusPrepared)
  }

  /** Who can answer later is not touched by what happens to the resource at position i. */
  lemma AnswersLater(s: Sys, t: Sys, pass: Pass, i: nat)
    requires CanAnswer(s, pass, i) && i < |s.entries| == |t.entries| && Distinct(s.entries)
    requires forall j | i < j < |s.entries| :: t.entries[j] == s.entries[j]
    requires forall x | x in s.parts && x != s.entries[i].r :: x in t.parts && t.parts[x] == s.parts[x]
    ensures CanAnswer(t, pass, i + 1)
  {
  }

  lemma AnswersNow(s: Sys, fates: Fates, pass: Pass, i: nat)
    requires Inv(s) && Waitless(s.trace) && AllBenign(fates) && i < |s.entries|
    requires CanAnswer(s, pass, i) && Eligible(pass, s.entries[i].rv)
    ensures var (t, reply) := Call(s, fates, PassRequest(pass), s.entries[i].r);
            && Waitless(t.trace) && (reply == Done || (reply.Failed? && Tolerated(reply.error)))
            && CanAnswer(t, pass, i + 1) && CanAnswer(SetVoteAt(t, i, Settled(pass)), pass, i + 1)
  {
    var r := s.entries[i].r;
    InvIsDistinct(s);
    NotAborted(s, r);
    BenignCall(s, fates, PassRequest(pass), r);
    hide Inv, Call;
    var t := Call(s, fates, PassRequest(pass), r).0;
    AnswersLater(s, t, pass, i);
    AnswersLater(s, SetVoteAt(t, i, Settled(pass)), pass, i);
  }

  lemma {:induction false} SweepTerminates(s: Sys, fates: Fates, pass: Pass, i: nat, heuristics: bool)
    requires Inv(s) && Waitless(s.trace) && AllBenign(fates) && InPass(s, pass) && CanAnswer(s, pass, i)
    requires pass == FirstCommit || pass == FirstRollback
    ensures var (t, _, end) := Sweep(s, fates, pass, i, heuristics);
            end == Returned && Waitless(t.trace)
    decreases |s.entries| - i
  {
    InvIsDistinct(s);
    hide Inv, Read, Call, Sweep, Waitless, CanAnswer;
    SweepSkips(s, fates, pass, i, heuristics);
    if i < |s.entries| {
      if !Eligible(pass, s.entries[i].rv) {
        AnswersLater(s, s, pass, i);
        SweepTerminates(s, fates, pass, i + 1, heuristics);
      } else {
        SweepStep(s, fates, pass, i);
        AnswersNow(s, fates, pass, i);
        SweepUnfolds(s, fates, pass, i, heuristics);
        var (t, reply) := Call(s, fates, PassRequest(pass), s.entries[i].r);
        var u := if reply == Done then SetVoteAt(t, i, Settled(pass)) else t;
        SweepTerminates(u, fates, pass, i + 1, heuristics || reply != Done);
      }
    }
  }

  lemma {:induction false} BeforeWaitless(s: Sys, i: nat)
    requires Waitless(s.trace)
    ensures Waitless(BeforeFrom(s, i).trace) && Read(BeforeFrom(s, i).trace).aborted == Read(s.trace).aborted
    decreases |s.syncs| - i
  {
    if i < |s.syncs| {
      var e := BeforeCompletion(s.syncs[i]);
      Quietly(s, Emit(s, e), e);
      BeforeWaitless(Emit(s, e), i + 1);
    }
  }

  lemma {:induction false} AfterWaitless(s: Sys, i: nat)
    requires Waitless(s.trace)
    ensures Waitless(AfterFrom(s, i).trace)
    decreases |s.syncs| - i
  {
    if i < |s.syncs| {
      var e := AfterCompletion(s.syncs[i], s.status);
      Quietly(s, Emit(s, e), e);
      AfterWaitless(Emit(s, e), i + 1);
    }
  }

  lemma ListedCanAnswer(s: Sys)
    requires Inv(s) && NobodyAborted(s)
    ensures CanAnswer(s, FirstRollback, 0)
  {
    forall j | 0 <= j < |s.entries|
      ensures s.entries[j].r in s.parts && s.parts[s.entries[j].r].status != StatusRollingBack
    {
      NotAborted(s, s.entries[j].r);
    }
  }

  lemma PreparedCanAnswer(s: Sys)
    requires Inv(s) && s.status == StatusPreparing
    requires Read(s.trace).favourable && |Read(s.trace).prepared| == |s.entries|
    ensures CanAnswer(s, FirstCommit, 0)
  {
    forall j | 0 <= j < |s.entries|
      ensures s.entries[j].r in s.parts && s.parts[s.entries[j].r].status == StatusPrepared
    {
      assert Read(s.trace).prepared[j] == s.entries[j].r;
    }
  }

  /** The common end of a first pass that cannot hang. */
  lemma PassTerminates(s: Sys, fates: Fates, pass: Pass)
    requires Inv(s) && Waitless(s.trace) && AllBenign(fates) && InPass(s, pass) && CanAnswer(s, pass, 0)
    requires pass == FirstCommit || pass == FirstRollback
    ensures var (t, _, end) := Sweep(s, fates, pass, 0, false);
            var u := SetStatus(t, StatusNoTransaction);
            && end == Returned && Inv(u) && Waitless(u.trace)
            && Inv(AfterFrom(u, 0)) && Waitless(AfterFrom(u, 0).trace) && AfterFrom(u, 0).status == StatusNoTransaction
  {
    hide Inv, Read, Sweep;
    SweepTerminates(s, fates, pass, 0, false);
    FinishRollback(s, fates, pass);
    var t := Sweep(s, fates, pass, 0, false).0;
    Quietly(t, SetStatus(t, StatusNoTransaction), StatusSet(StatusNoTransaction));
    AfterWaitless(SetStatus(t, StatusNoTransaction), 0);
  }

  lemma RollbackTerminates(s: Sys, fates: Fates)
    requires Inv(s) && Waitless(s.trace) && AllBenign(fates) && NobodyAborted(s)
    requires s.status == StatusActive || s.status == StatusMarkedRollback
    ensures var (t, end) := RollbackTransaction(s, fates);
            && Inv(t) && Waitless(t.trace) && t.status == StatusNoTransaction
            && (end == Returned || end == Raised(HeuristicHazard))
  {
    hide Inv, Read, Sweep, Waitless;
    var s0 := SetStatus(s, StatusRollingBack);
    StepToRollingBack(s);
    Quietly(s, s0, StatusSet(StatusRollingBack));
    ListedCanAnswer(s0);
    PassTerminates(s0, fates, FirstRollback);
  }

  lemma TwoPhaseTerminates(s: Sys, fates: Fates, report: bool)
    requires Inv(s) && Waitless(s.trace) && AllBenign(fates) && NobodyAborted(s)
    requires s.status == StatusActive && |s.entries| >= 2
    ensures var (t, end) := TwoPhase(s, fates, report);
            Inv(t) && Waitless(t.trace) && t.status == StatusNoTransaction && end != Blocked
  {
    hide Inv, Read, Sweep, Waitless, PrepareFrom, RollbackTransaction;
    var s0 := SetStatus(s, StatusPreparing);
    StepToPreparing(s);
    Quietly(s, s0, StatusSet(StatusPreparing));
    PrepareTerminates(s0, fates, 0);
    PrepareKeeps(s0, fates, 0);
    var p := PrepareFrom(s0, fates, 0).0;
    if p.status == StatusMarkedRollback {
      RollbackTerminates(p, fates);
    } else {
      CommitTerminates(p, fates, report);
    }
  }

  lemma CommitTerminates(s: Sys, fates: Fates, report: bool)
    requires Inv(s) && Waitless(s.trace) && AllBenign(fates)
    requires s.status == StatusPreparing && Read(s.trace).favourable && |Read(s.trace).prepared| == |s.entries|
    ensures var (t, end) := CommitPrepared(s, fates, report);
            Inv(t) && Waitless(t.trace) && t.status == StatusNoTransaction && end != Blocked
  {
    PreparedCanAnswer(s);
    hide Inv, Read, Sweep, Waitless;
    StepToCommitting(s);
    Quietly(s, SetStatus(s, StatusCommitting), StatusSet(StatusCommitting));
    PassTerminates(SetStatus(s, StatusCommitting), fates, FirstCommit);
  }

  // ------------------------------------------------------------------
  // Runs
  // ------------------------------------------------------------------

  /** The only resource rolled itself back in a one-phase commit: the transaction is still Active
      and its participant can never answer again. */
  predicate SelfAborted(s: Sys) {
    s.status == StatusActive && !NobodyAborted(s)
  }

  lemma CommitOnlyTerminates(s: Sys, fates: Fates, report: bool)
    requires Inv(s) && Waitless(s.trace) && AllBenign(fates) && NobodyAborted(s)
    requires s.status == StatusActive && |s.entries| == 1
    ensures var (t, end) := CommitOnlyResource(s, fates, report);
            Waitless(t.trace) && t.status == StatusActive && end != Blocked
  {
    BenignCall(s, fates, CommitOnePhase, s.entries[0].r);
  }

  lemma CommitActiveTerminates(s: Sys, fates: Fates, report: bool)
    requires Inv(s) && Waitless(s.trace) && AllBenign(fates) && NobodyAborted(s) && s.status == StatusActive
    ensures var (t, end) := CommitActive(s, fates, report);
            && Waitless(t.trace) && end != Blocked
            && (t.status == StatusNoTransaction || (t.status == StatusActive && |s.entries| == 1))
  {
    hide Inv, Read, Waitless, Call, TwoPhase;
    BeforeKeeps(s, 0);
    BeforeWaitless(s, 0);
    var s1 := BeforeFrom(s, 0);
    if |s1.entries| == 0 {
      Quietly(s1, SetStatus(s1, StatusNoTransaction), StatusSet(StatusNoTransaction));
    } else if |s1.entries| == 1 {
      CommitOnlyTerminates(s1, fates, report);
    } else {
      TwoPhaseTerminates(s1, fates, report);
    }
  }

  lemma EnlistCallTerminates(s: Sys, fates: Fates, req: Request, r: Ref)
    requires Inv(s) && Waitless(s.trace) && s.status == StatusActive && Enlists(req)
    ensures var (t, reply) := Call(s, fates, req, r);
            && Inv(t) && Waitless(t.trace) && reply != Hung && Read(t.trace).aborted == Read(s.trace).aborted
  {
    hide Inv, Read, Waitless, Call, CallEvent;
    ReadsStatus(s);
    CallStep(s, fates, req, r);
    EnlistAnswered(s, fates, req, r);
    WaitlessExtended(s.trace, CallEvent(s, fates, req, r));
  }

  lemma EnlistAnswered(s: Sys, fates: Fates, req: Request, r: Ref)
    requires Inv(s) && Enlists(req)
    ensures var (t, reply) := Call(s, fates, req, r); var e := CallEvent(s, fates, req, r);
            && t.trace == s.trace + [e] && e.Called? && e.req == req && XaRollback !in e.issued && reply != Hung
  {
    CallEffect(s, fates, req, r);
    hide Inv, Read;
  }

  lemma RegisterTerminates(s: Sys, fates: Fates, r: Ref)
    requires Inv(s) && Waitless(s.trace)
    ensures var (t, end, _) := Register(s, fates, r);
            && Waitless(t.trace) && Read(t.trace).aborted == Read(s.trace).aborted
            && end != Blocked && t.status == s.status
  {
    hide Inv, Read, Waitless, Call;
    if s.status == StatusActive {
      EnlistCallTerminates(s, fates, Forget, r);
      var (s1, _) := Call(s, fates, Forget, r);
      EnlistCallTerminates(s1, fates, BeginTrans, r);
      var (s2, _) := Call(s1, fates, BeginTrans, r);
      RecoveryCoordinatorCreated(s2);
      var s2' := s2.(nextRc := s2.nextRc + 1);
      EnlistCallTerminates(s2', fates, SetRecoveryCoordinator(s2.nextRc), r);
      var (s3, _) := Call(s2', fates, SetRecoveryCoordinator(s2.nextRc), r);
      var t := Register(s, fates, r).0;
      if t.trace == s3.trace + [Joined(r)] {
        Quietly(s3, t, Joined(r));
      }
    }
  }

  /** A commit of an Active transaction with exactly one resource. */
  predicate CommitsAlone(s: Sys, op: Op) {
    op.OpCommit? && s.status == StatusActive && |s.entries| == 1
  }

  /** In a ready state and a benign environment every operation comes to an end, nobody waits, and
      the next state is ready too, unless a commit has just made the only resource roll back. */
  lemma ReadyStep(s: Sys, fates: Fates, op: Op)
    requires Ready(s) && AllBenign(fates)
    ensures var (t, end) := Step(s, fates, op);
            end != Blocked && Waitless(t.trace) && (Ready(t) || (SelfAborted(t) && CommitsAlone(s, op)))
  {
    hide Inv, Read, Waitless, CommitActive, RollbackTransaction, Register;
    StepKeeps(s, fates, op);
    match op
    case OpRegister(r) => RegisterTerminates(s, fates, r);
    case OpRegisterSync(x) =>
      if s.status == StatusActive {
        Quietly(s, RegisterSync(s, x).0, SyncJoined(x));
      }
    case OpRollbackOnly =>
      if s.status == StatusActive {
        Quietly(s, SetStatus(s, StatusMarkedRollback), StatusSet(StatusMarkedRollback));
      }
    case OpCommit(report) =>
      if s.status == StatusActive {
        CommitActiveTerminates(s, fates, report);
      } else if s.status == StatusMarkedRollback {
        RollbackTerminates(s, fates);
      }
    case OpRollback =>
      if s.status == StatusNoTransaction {
        NoTransactionRefuses(s, fates);
      } else {
        RollbackTerminates(s, fates);
      }
  }

  lemma NoTransactionRefuses(s: Sys, fates: Fates)
    requires s.status == StatusNoTransaction
    ensures RollbackTransaction(s, fates) == (s, Raised(InvalidTransaction))
  {
  }

  /** No operation of the run leaves a transaction Active whose only resource rolled itself back. */
  predicate NeverSelfAborted(s: Sys, fates: Fates, ops: seq<Op>)
    decreases |ops|
  {
    ops != [] ==>
      var t := Step(s, fates, ops[0]).0;
      !SelfAborted(t) && NeverSelfAborted(t, fates, ops[1..])
  }

  /** How the operations of a run end, in order. */
  function Ends(s: Sys, fates: Fates, ops: seq<Op>): (ends: seq<Outcome>)
    ensures |ends| == |ops|
    decreases |ops|
  {
    if ops == [] then [] else
    var (t, end) := Step(s, fates, ops[0]);
    [end] + Ends(t, fates, ops[1..])
  }

  lemma {:induction false} ReadyRun(s: Sys, fates: Fates, ops: seq<Op>)
    requires Ready(s) && AllBenign(fates) && NeverSelfAborted(s, fates, ops)
    ensures Ready(Run(s, fates, ops)) && Blocked !in Ends(s, fates, ops)
    decreases |ops|
  {
    if ops != [] {
      ReadyStep(s, fates, ops[0]);
      ReadyRun(Step(s, fates, ops[0]).0, fates, ops[1..]);
    }
  }

  lemma InitialIsReady(s: Sys)
    requires Initial(s)
    ensures Ready(s)
  {
    InitialFits(s);
  }

  /** No blocking: in every such run every operation ends, no participant ever enters a wait, and
      between operations the status is Active, MarkedRollback or NoTransaction. */
  lemma NoBlocking(s: Sys, fates: Fates, ops: seq<Op>)
    requires Initial(s) && AllBenign(fates) && NeverSelfAborted(s, fates, ops)
    ensures Ready(Run(s, fates, ops)) && Blocked !in Ends(s, fates, ops)
  {
    InitialIsReady(s);
    hide Ready;
    ReadyRun(s, fates, ops);
  }

  predicate NeverCommitsAlone(s: Sys, fates: Fates, ops: seq<Op>)
    decreases |ops|
  {
    ops != [] ==> !CommitsAlone(s, ops[0]) && NeverCommitsAlone(Step(s, fates, ops[0]).0, fates, ops[1..])
  }

  lemma {:induction false} NeverAloneNeverAborted(s: Sys, fates: Fates, ops: seq<Op>)
    requires Ready(s) && AllBenign(fates) && NeverCommitsAlone(s, fates, ops)
    ensures NeverSelfAborted(s, fates, ops)
    decreases |ops|
  {
    if ops != [] {
      ReadyStep(s, fates, ops[0]);
      NeverAloneNeverAborted(Step(s, fates, ops[0]).0, fates, ops[1..]);
    }
  }

  /** What a client can do about it: never to commit with a single resource is enough. */
  lemma NoBlockingWithoutLoneCommit(s: Sys, fates: Fates, ops: seq<Op>)
    requires Initial(s) && AllBenign(fates) && NeverCommitsAlone(s, fates, ops)
    ensures Ready(Run(s, fates, ops)) && Blocked !in Ends(s, fates, ops)
  {
    InitialIsReady(s);
    NeverAloneNeverAborted(s, fates, ops);
    hide Ready;
    ReadyRun(s, fates, ops);
  }
}
