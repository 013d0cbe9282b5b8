/** States that a client can bring about and that the coordinator does not get out of: exactly when
    they are reached, what they lead to, and runs from the start that reach them. */
module Pitfalls {
  import opened OtsTypes
  import opened Participants
  import opened CoordinatorSpec
  import opened Invariant
  import opened Runs
  import opened Growth
  import opened Outcomes
  import opened Atomicity
  import opened Forecasts
  import opened Endings
  import opened Assurances
  import opened Waits

  // ------------------------------------------------------------------
  // A first phase that stalls
  // ------------------------------------------------------------------

  /** A transaction left in Preparing stays there for good, whatever is called: nothing is sent, no
      participant moves, and both ways to end it report success. */
  lemma {:induction false} PreparingIsForGood(s: Sys, fates: Fates, ops: seq<Op>, report: bool)
    requires s.status == StatusPreparing
    ensures Run(s, fates, ops) == s
    ensures CommitTransaction(s, fates, report) == (s, Returned) && RollbackTransaction(s, fates) == (s, Returned)
    decreases |ops|
  {
    if ops != [] {
      PreparingStays(s, fates, ops[0]);
      PreparingIsForGood(s, fates, ops[1..], report);
    }
  }

  lemma PreparingStays(s: Sys, fates: Fates, op: Op)
    requires s.status == StatusPreparing
    ensures Step(s, fates, op).0 == s
  {
  }

  /** It is entered exactly by the commit of two or more resources of which one gives no countable
      answer to prepare before any of them declines. */
  lemma PreparingIff(s: Sys, fates: Fates, op: Op)
    requires Resting(s) && s.status != StatusPreparing
    ensures Step(s, fates, op).0.status == StatusPreparing <==>
              op.OpCommit? && s.status == StatusActive && |s.entries| >= 2 && PhaseOf(s, fates).StallsAt?
  {
    hide Inv, PhaseOf, CommitTransaction, RollbackTransaction, Register;
    match op
    case OpRegister(r) => RegisterIsQuick(s, fates, r);
    case OpCommit(report) => CommitStalls(s, fates, report);
    case OpRollback => RollbackNeverPrepares(s, fates);
    case _ =>
  }

  lemma RegisterIsQuick(s: Sys, fates: Fates, r: Ref)
    ensures Register(s, fates, r).0.status == s.status
  {
  }

  lemma RollbackNeverPrepares(s: Sys, fates: Fates)
    requires Resting(s) && s.status != StatusPreparing
    ensures RollbackTransaction(s, fates).0.status != StatusPreparing
  {
    hide Inv, Sweep;
    if s.status == StatusActive || s.status == StatusMarkedRollback {
      RollbackOutcome(s, fates);
    } else if s.status == StatusRollingBack {
      FinishRollback(s, fates, RetryRollback);
    }
  }

  lemma CommitStalls(s: Sys, fates: Fates, report: bool)
    requires Resting(s) && s.status != StatusPreparing
    ensures CommitTransaction(s, fates, report).0.status == StatusPreparing <==>
              s.status == StatusActive && |s.entries| >= 2 && PhaseOf(s, fates).StallsAt?
  {
    hide Inv, PhaseOf, Sweep, TwoPhase, RollbackTransaction;
    if s.status == StatusActive {
      BeforeGrows(s, 0);
      if |s.entries| >= 2 {
        CommitEndings(s, fates, report);
      }
    } else if s.status == StatusMarkedRollback {
      RollbackNeverPrepares(s, fates);
    } else if s.status == StatusCommitting {
      FinishRollback(s, fates, RetryCommit);
    }
  }

  // ------------------------------------------------------------------
  // Runs from the start
  // ------------------------------------------------------------------

  lemma RunUnfolds(s: Sys, fates: Fates, op: Op, ops: seq<Op>)
    ensures Run(s, fates, [op] + ops) == Run(Step(s, fates, op).0, fates, ops)
  {
    hide Step;
    assert ([op] + ops)[1..] == ops;
  }

  /** A registration whose three messages arrive. */
  lemma RegistrationArrives(s: Sys, fates: Fates, r: Ref)
    requires s.status == StatusActive && Find(s.entries, r) == |s.entries| && r in s.parts
    requires forall m | |s.trace| <= m <= |s.trace| + 2 :: fates(m).Delivered? && fates(m).db.beginOk
    ensures var t := Register(s, fates, r).0;
            && t.status == StatusActive && t.syncs == s.syncs && |t.trace| == |s.trace| + 4
            && t.entries == s.entries + [Entry(r, s.nextRc, RvNotPrepared)]
            && t.parts == s.parts[r := s.parts[r].(recoveryCoordinator := Some(s.nextRc))]
  {
    assert fates(|s.trace|).Delivered? && fates(|s.trace| + 1).Delivered? && fates(|s.trace| + 2).Delivered?;
    assert s.parts[r := s.parts[r]] == s.parts;
    var s1 := Call(s, fates, Forget, r).0;
    assert s1.parts == s.parts;
    var s2 := Call(s1, fates, BeginTrans, r).0;
    assert s2.parts == s.parts;
  }

  /** A commit of a single fresh resource whose message arrives. */
  lemma LoneCommitArrives(s: Sys, fates: Fates, report: bool)
    requires s.status == StatusActive && |s.entries| == 1 && s.syncs == [] && fates(|s.trace|).Delivered?
    requires s.entries[0].r in s.parts && s.parts[s.entries[0].r].status == StatusActive
    ensures var t, r := CommitTransaction(s, fates, report).0, s.entries[0].r;
            && t.status == StatusActive && t.syncs == [] && |t.trace| == |s.trace| + 1 && t.entries == s.entries
            && t.nextRc == s.nextRc
            && t.parts == s.parts[r := CommitOnePhaseOf(s.parts[r], fates(|s.trace|).db).0]
  {
  }

  /** One resource registers and commits alone, and another joins. */
  lemma JoinedAfterCommit(s: Sys, a: Ref, b: Ref, report: bool)
    requires Initial(s) && a in s.parts && b in s.parts && a != b
    ensures var s1 := Register(s, AllIsWell(), a).0;
            var s2 := CommitTransaction(s1, AllIsWell(), report).0;
            AboutToSplit(Register(s2, AllIsWell(), b).0)
  {
    hide Register, CommitTransaction, Find;
    var F := AllIsWell();
    NotThere(s.entries, a);
    RegistrationArrives(s, F, a);
    var s1 := Register(s, F, a).0;
    LoneCommitArrives(s1, F, report);
    var s2 := CommitTransaction(s1, F, report).0;
    NotThere(s2.entries, b);
    RegistrationArrives(s2, F, b);
  }

  /** A run that splits two resources although every message arrives and every database call
      succeeds: register one, commit it, register the other, roll back. */
  lemma SplitIsReached(s: Sys, a: Ref, b: Ref, report: bool)
    requires Initial(s) && a in s.parts && b in s.parts && a != b
    ensures AboutToSplit(Run(s, AllIsWell(), [OpRegister(a), OpCommit(report), OpRegister(b)]))
    ensures !Atomic(Run(s, AllIsWell(), [OpRegister(a), OpCommit(report), OpRegister(b), OpRollback]))
  {
    hide Register, CommitTransaction, RollbackTransaction, Run, AboutToSplit, Atomic, Initial;
    var F := AllIsWell();
    JoinedAfterCommit(s, a, b, report);
    var s3 := Register(CommitTransaction(Register(s, F, a).0, F, report).0, F, b).0;
    assert [OpRegister(a), OpCommit(report), OpRegister(b)]
        == [OpRegister(a)] + ([OpCommit(report)] + ([OpRegister(b)] + []));
    RunOfThree(s, F, OpRegister(a), OpCommit(report), OpRegister(b), []);
    RunNothing(s3, F);
    assert [OpRegister(a), OpCommit(report), OpRegister(b), OpRollback]
        == [OpRegister(a)] + ([OpCommit(report)] + ([OpRegister(b)] + [OpRollback]));
    RunOfThree(s, F, OpRegister(a), OpCommit(report), OpRegister(b), [OpRollback]);
    RollbackSplits(s3);
    OneRollback(s3);
  }

  lemma RunNothing(s: Sys, fates: Fates)
    ensures Run(s, fates, []) == s
  {
  }

  lemma RunOfThree(s: Sys, fates: Fates, op1: Op, op2: Op, op3: Op, ops: seq<Op>)
    ensures Run(s, fates, [op1] + ([op2] + ([op3] + ops))) ==
              Run(Step(Step(Step(s, fates, op1).0, fates, op2).0, fates, op3).0, fates, ops)
  {
    hide Step, Run;
    RunUnfolds(s, fates, op1, [op2] + ([op3] + ops));
    RunUnfolds(Step(s, fates, op1).0, fates, op2, [op3] + ops);
    RunUnfolds(Step(Step(s, fates, op1).0, fates, op2).0, fates, op3, ops);
  }

  lemma NotThere(entries: seq<Entry>, r: Ref)
    requires forall j | 0 <= j < |entries| :: entries[j].r != r
    ensures Find(entries, r) == |entries|
  {
    assert Find(entries, r) <= |entries|;
  }

  lemma RefusedIsCaught(s: Sys, fates: Fates)
    requires Inv(s) && s.status == StatusActive && |s.entries| == 1 && s.entries[0].rv == RvNotPrepared
    requires s.entries[0].r in s.parts && XaRollback in s.parts[s.entries[0].r].commands
    requires forall m: nat :: fates(m).Delivered?
    ensures RollbackTransaction(s, fates).1 == Blocked
  {
    hide RollbackTransaction;
    RollbackBlocksIff(s, fates);
    CommandsShowStatus(s, s.entries[0].r);
    assert CaughtAt(s.entries, s.parts, fates, FirstRollback, RollbackUntil(s), 0);
  }

  /** Everything arrives, and every prepare is answered with a rollback vote. */
  function AllRefuse(): Fates {
    n => Delivered(Database(-1, true, true))
  }

  /** A run that is caught in a busy-wait: register one resource, commit it, roll back. */
  lemma WaitIsReached(s: Sys, a: Ref, report: bool)
    requires Initial(s) && a in s.parts
    ensures Step(Run(s, AllRefuse(), [OpRegister(a), OpCommit(report)]), AllRefuse(), OpRollback).1 == Blocked
  {
    hide Register, CommitTransaction, RollbackTransaction, Find, Inv;
    var F := AllRefuse();
    NotThere(s.entries, a);
    RegistrationArrives(s, F, a);
    var s1 := Register(s, F, a).0;
    LoneCommitArrives(s1, F, report);
    var s2 := CommitTransaction(s1, F, report).0;
    InitialFits(s);
    StepKeeps(s, F, OpRegister(a));
    StepKeeps(s1, F, OpCommit(report));
    RefusedIsCaught(s2, F);
    RunUnfolds(s, F, OpRegister(a), [OpCommit(report)]);
    RunUnfolds(s1, F, OpCommit(report), []);
    assert [OpRegister(a), OpCommit(report)] == [OpRegister(a)] + [OpCommit(report)];
    assert [OpCommit(report)] + [] == [OpCommit(report)];
  }

  /** The registrations of two resources, when all six messages arrive. */
  lemma TwoRegistered(s: Sys, fates: Fates, a: Ref, b: Ref)
    requires Initial(s) && a in s.parts && b in s.parts && a != b
    requires forall m | 0 <= m <= 6 :: fates(m).Delivered? && fates(m).db.beginOk
    ensures var t := Run(s, fates, [OpRegister(a), OpRegister(b)]);
            && Resting(t) && t.status == StatusActive && t.syncs == [] && |t.trace| == 8
            && |t.entries| == 2 && t.entries[0].r == a && t.entries[1].r == b
            && a in t.parts && t.parts[a].status == StatusActive && b in t.parts && t.parts[b].status == StatusActive
  {
    hide Register, Find, Inv;
    NotThere(s.entries, a);
    RegistrationArrives(s, fates, a);
    var s1 := Register(s, fates, a).0;
    NotThere(s1.entries, b);
    RegistrationArrives(s1, fates, b);
    TwoOps(s, fates, OpRegister(a), OpRegister(b));
    InitialFits(s);
    RunKeeps(s, fates, [OpRegister(a), OpRegister(b)]);
  }

  lemma TwoOps(s: Sys, fates: Fates, op1: Op, op2: Op)
    ensures Run(s, fates, [op1, op2]) == Step(Step(s, fates, op1).0, fates, op2).0
  {
    hide Step;
    assert [op1, op2] == [op1] + ([op2] + []);
    RunUnfolds(s, fates, op1, [op2] + []);
    RunUnfolds(Step(s, fates, op1).0, fates, op2, []);
  }

  /** The second prepare of a run that registers two resources and commits is not executed. */
  function SecondPrepareLost(): Fates {
    n => if n == 10 then NotExecuted(OtherSystemError) else Delivered(OK)
  }

  /** A run that stalls: the first resource has prepared and waits for ever, and whoever commits or
      rolls back from now on is told of success. */
  lemma StallIsReached(s: Sys, a: Ref, b: Ref, report: bool, later: Fates, ops: seq<Op>)
    requires Initial(s) && a in s.parts && b in s.parts && a != b
    ensures var u := Run(s, SecondPrepareLost(), [OpRegister(a), OpRegister(b)]);
            var t := CommitTransaction(u, SecondPrepareLost(), report).0;
            && t.status == StatusPreparing && a in t.parts && t.parts[a].status == StatusPrepared
            && Run(t, later, ops) == t
            && CommitTransaction(t, later, report).1 == Returned && RollbackTransaction(t, later).1 == Returned
  {
    hide CommitTransaction, RollbackTransaction, Inv, Run;
    TwoRegistered(s, SecondPrepareLost(), a, b);
    var u := Run(s, SecondPrepareLost(), [OpRegister(a), OpRegister(b)]);
    SecondPrepareStalls(u, report);
    PreparingIsForGood(CommitTransaction(u, SecondPrepareLost(), report).0, later, ops, report);
  }

  lemma SecondPrepareStalls(s: Sys, report: bool)
    requires s.status == StatusActive && |s.entries| == 2 && s.syncs == [] && |s.trace| == 8
    requires s.entries[0].r != s.entries[1].r
    requires forall j | 0 <= j < 2 :: s.entries[j].r in s.parts && s.parts[s.entries[j].r].status == StatusActive
    ensures var t := CommitTransaction(s, SecondPrepareLost(), report).0;
            t.status == StatusPreparing && s.entries[0].r in t.parts && t.parts[s.entries[0].r].status == StatusPrepared
  {
    var F, a, b := SecondPrepareLost(), s.entries[0].r, s.entries[1].r;
    var s0 := SetStatus(s, StatusPreparing);
    var (s1, reply1) := Call(s0, F, Prepare, a);
    assert reply1 == Voted(VoteCommit);
    var s2 := SetVoteAt(s1, 0, RvVoteCommit);
    var (s3, reply2) := Call(s2, F, Prepare, b);
    assert reply2 == Failed(OtherSystemError);
    assert PrepareFrom(s0, F, 0) == PrepareFrom(s2, F, 1) == (s3, Raised(SystemException(OtherSystemError)));
    assert BeforeFrom(s, 0) == s;
  }

  /** In a run that registers two resources and commits, the second xacommit fails and the answer to
      it is lost. */
  function SecondCommitFails(): Fates {
    n => if n == 13 then ReplyLost(Database(1, false, true), CommFailure) else Delivered(OK)
  }

  /** A run in which a commit reports success although one of the two databases has failed to commit,
      so that the work of one resource is there and that of the other is lost. */
  lemma HiddenFailureIsReached(s: Sys, a: Ref, b: Ref)
    requires Initial(s) && a in s.parts && b in s.parts && a != b
    ensures var u := Run(s, SecondCommitFails(), [OpRegister(a), OpRegister(b)]);
            var (t, end) := CommitTransaction(u, SecondCommitFails(), false);
            end == Returned && HasApplied(t, a) && CommitFailed(t, b)
  {
    hide CommitTransaction, Inv, Run;
    var F := SecondCommitFails();
    TwoRegistered(s, F, a, b);
    TwoPrepared(Run(s, F, [OpRegister(a), OpRegister(b)]), F, false);
  }

  /** Both resources vote favourably, and no message stops the commit pass. */
  lemma TwoPrepared(s: Sys, fates: Fates, report: bool)
    requires Resting(s) && s.status == StatusActive && |s.entries| == 2
    requires forall j | 0 <= j < 2 :: s.entries[j].r in s.parts && s.parts[s.entries[j].r].status == StatusActive
    requires fates(PreparesFrom(s)) == Delivered(OK) && fates(PreparesFrom(s) + 1) == Delivered(OK)
    requires SmoothCommit(fates, CommitsFrom(s), 0) && SmoothCommit(fates, CommitsFrom(s), 1)
    requires !report || !AnyLost(fates, CommitsFrom(s), 2)
    ensures var (t, end) := CommitTransaction(s, fates, report);
            && end == Returned && t.status == StatusNoTransaction
            && CommitEffect(t, s.entries[0].r, fates(CommitsFrom(s)))
            && CommitEffect(t, s.entries[1].r, fates(CommitsFrom(s) + 1))
  {
    hide Inv, CommitTransaction;
    var n := PreparesFrom(s);
    assert PhaseFrom(s, fates, n, 2) == AllFavour;
    assert PhaseFrom(s, fates, n, 1) == AllFavour;
    CommitEndings(s, fates, report);
    var t := CommitTransaction(s, fates, report).0;
    assert CommitEffect(t, s.entries[0].r, fates(CommitsFrom(s)));
    assert CommitEffect(t, s.entries[1].r, fates(CommitsFrom(s) + 1));
  }
}
