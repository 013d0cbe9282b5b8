/** Participants that are left prepared for good, after a commit and after an abort alike. */
module Doubts {
  import opened OtsTypes
  import opened Participants
  import opened CoordinatorSpec
  import opened Invariant
  import opened Runs
  import opened Atomicity
  import opened Assurances
  import opened Pitfalls

  /** A transaction that is over stays as it is, whatever is called: nobody left in doubt ever hears
      from it again. */
  lemma {:induction false} NoTransactionIsForGood(s: Sys, fates: Fates, ops: seq<Op>)
    requires s.status == StatusNoTransaction
    ensures Run(s, fates, ops) == s
    decreases |ops|
  {
    if ops != [] {
      NoTransactionStays(s, fates, ops[0]);
      NoTransactionIsForGood(s, fates, ops[1..]);
    }
  }

  lemma NoTransactionStays(s: Sys, fates: Fates, op: Op)
    requires s.status == StatusNoTransaction
    ensures Step(s, fates, op).0 == s
  {
  }

  /** Of a run that registers two resources and commits, the first commit message is not executed. */
  function FirstCommitLost(): Fates {
    n => if n == 12 then NotExecuted(CommFailure) else Delivered(OK)
  }

  /** Of such a run, the answer to the first prepare is lost. */
  function FirstPrepareUnanswered(): Fates {
    n => if n == 9 then ReplyLost(OK, CommFailure) else Delivered(OK)
  }

  /** A commit that reports success: the work of the second resource is carried out, and the first
      stays prepared for good. */
  lemma DoubtAfterSuccess(s: Sys, a: Ref, b: Ref, later: Fates, ops: seq<Op>)
    requires Initial(s) && a in s.parts && b in s.parts && a != b
    ensures var u := Run(s, FirstCommitLost(), [OpRegister(a), OpRegister(b)]);
            var (t, end) := CommitTransaction(u, FirstCommitLost(), false);
            && end == Returned && t.status == StatusNoTransaction && InDoubt(t, a) && HasApplied(t, b)
            && Run(t, later, ops) == t
  {
    hide CommitTransaction, Inv, Run;
    var F := FirstCommitLost();
    TwoRegistered(s, F, a, b);
    var u := Run(s, F, [OpRegister(a), OpRegister(b)]);
    TwoPrepared(u, F, false);
    NoTransactionIsForGood(CommitTransaction(u, F, false).0, later, ops);
  }

  /** A commit that raises TRANSACTION_ROLLEDBACK: the second resource has rolled back, and the first,
      which has prepared and is never told to roll back, stays prepared for good. */
  lemma DoubtAfterAbort(s: Sys, a: Ref, b: Ref, report: bool, later: Fates, ops: seq<Op>)
    requires Initial(s) && a in s.parts && b in s.parts && a != b
    ensures var u := Run(s, FirstPrepareUnanswered(), [OpRegister(a), OpRegister(b)]);
            var (t, end) := CommitTransaction(u, FirstPrepareUnanswered(), report);
            && end == Raised(TransactionRolledBack) && t.status == StatusNoTransaction
            && InDoubt(t, a) && HasAborted(t, b) && Run(t, later, ops) == t
  {
    hide CommitTransaction, Inv, Run;
    var F := FirstPrepareUnanswered();
    TwoRegistered(s, F, a, b);
    var u := Run(s, F, [OpRegister(a), OpRegister(b)]);
    ActiveUnvoted(u);
    FirstPrepareAborts(u, report);
    NoTransactionIsForGood(CommitTransaction(u, F, report).0, later, ops);
  }

  lemma ActiveUnvoted(s: Sys)
    requires Inv(s) && s.status == StatusActive
    ensures NobodyVoted(s.entries)
  {
  }

  lemma FirstPrepareAborts(s: Sys, report: bool)
    requires s.status == StatusActive && |s.entries| == 2 && s.syncs == [] && |s.trace| == 8
    requires s.entries[0].r != s.entries[1].r && NobodyVoted(s.entries)
    requires forall j | 0 <= j < 2 :: s.entries[j].r in s.parts && s.parts[s.entries[j].r].status == StatusActive
    ensures var (t, end) := CommitTransaction(s, FirstPrepareUnanswered(), report);
            && end == Raised(TransactionRolledBack) && t.status == StatusNoTransaction
            && InDoubt(t, s.entries[0].r) && HasAborted(t, s.entries[1].r)
  {
    hide RollbackTransaction;
    var F, a, b := FirstPrepareUnanswered(), s.entries[0].r, s.entries[1].r;
    var s0 := SetStatus(s, StatusPreparing);
    var (s1, reply) := Call(s0, F, Prepare, a);
    assert reply == Failed(CommFailure) && s1.parts[a].status == StatusPrepared;
    var s2 := SetStatus(SetVoteAt(s1, 0, RvRolledBack), StatusMarkedRollback);
    assert PrepareFrom(s0, F, 0) == PrepareFrom(s2, F, 1) == (s2, Returned);
    RollbackOfTheSecond(s2, F);
    assert BeforeFrom(s, 0) == s;
  }

  lemma RollbackOfTheSecond(s: Sys, fates: Fates)
    requires s.status == StatusMarkedRollback && |s.entries| == 2 && s.syncs == []
    requires s.entries[0].r != s.entries[1].r && s.entries[0].rv == RvRolledBack && s.entries[1].rv == RvNotPrepared
    requires fates(|s.trace| + 1).Delivered?
    requires s.entries[1].r in s.parts && s.parts[s.entries[1].r].status == StatusActive
    ensures var (t, end) := RollbackTransaction(s, fates); var r := s.entries[1].r;
            && end == Returned && t.status == StatusNoTransaction && HasAborted(t, r)
            && t.parts == s.parts[r := RollbackOf(s.parts[r]).0]
  {
    var s0 := SetStatus(s, StatusRollingBack);
    var (s1, reply) := Call(s0, fates, Rollback, s.entries[1].r);
    FindAt(s1.entries, 1);
    var s2 := SetVoteAt(s1, 1, RvRolledBack);
    assert Sweep(s0, fates, FirstRollback, 0, false) == Sweep(s0, fates, FirstRollback, 1, false)
        == Sweep(s2, fates, FirstRollback, 2, false) == (s2, false, Returned);
  }

  /** The answer NoTransaction to replay_completion does not tell a prepared participant which way to
      go: the same participant of the same two registrations gets it, in one run after the other has
      committed and in another after the other has rolled back. */
  lemma NoTransactionDecidesNothing(s: Sys, a: Ref, b: Ref)
    requires Initial(s) && a in s.parts && b in s.parts && a != b
    ensures exists f: Fates, g: Fates ::
              var ops := [OpRegister(a), OpRegister(b), OpCommit(false)];
              var t, u := Run(s, f, ops), Run(s, g, ops);
              && InDoubt(t, a) && ReplayCompletion(t.status) == Some(StatusNoTransaction) && HasApplied(t, b)
              && InDoubt(u, a) && ReplayCompletion(u.status) == Some(StatusNoTransaction) && HasAborted(u, b)
  {
    hide CommitTransaction, Run, InDoubt, HasApplied, HasAborted;
    var f, g := FirstCommitLost(), FirstPrepareUnanswered();
    DoubtAfterSuccess(s, a, b, f, []);
    DoubtAfterAbort(s, a, b, false, g, []);
    ThenCommits(s, f, a, b);
    ThenCommits(s, g, a, b);
  }

  lemma ThenCommits(s: Sys, fates: Fates, a: Ref, b: Ref)
    ensures Run(s, fates, [OpRegister(a), OpRegister(b), OpCommit(false)]) ==
              CommitTransaction(Run(s, fates, [OpRegister(a), OpRegister(b)]), fates, false).0
  {
    hide Register, CommitTransaction;
    TwoOps(s, fates, OpRegister(a), OpRegister(b));
    var u := Run(s, fates, [OpRegister(a), OpRegister(b)]);
    assert [OpRegister(a), OpRegister(b), OpCommit(false)]
        == [OpRegister(a)] + ([OpRegister(b)] + ([OpCommit(false)] + []));
    RunOfThree(s, fates, OpRegister(a), OpRegister(b), OpCommit(false), []);
    RunNothing(Step(u, fates, OpCommit(false)).0, fates);
  }

  /** The message of a single commit is not executed. */
  function LoneCommitLost(): Fates {
    n => if n == 4 then NotExecuted(CommFailure) else Delivered(OK)
  }

  /** A commit of a single resource that reports success although nothing has happened: no participant
      has been asked anything. */
  lemma LoneSuccessWithoutCommit(s: Sys, a: Ref)
    requires Initial(s) && a in s.parts
    ensures var u := Step(s, LoneCommitLost(), OpRegister(a)).0;
            var (t, end) := CommitTransaction(u, LoneCommitLost(), false);
            && end == Returned && t.parts == u.parts && Find(t.entries, a) < |t.entries|
            && !HasCommitted(t, a) && !HasAborted(t, a)
  {
    hide Register, CommitTransaction, Find, Inv;
    var F := LoneCommitLost();
    InitialFits(s);
    NotThere(s.entries, a);
    RegistrationArrives(s, F, a);
    StepKeeps(s, F, OpRegister(a));
    var u := Register(s, F, a).0;
    LoneCommitMissed(u, F, false);
    ListedFirst(CommitTransaction(u, F, false).0);
  }

  lemma ListedFirst(s: Sys)
    ensures s.entries != [] ==> Find(s.entries, s.entries[0].r) < |s.entries|
  {
  }

  lemma LoneCommitMissed(s: Sys, fates: Fates, report: bool)
    requires s.status == StatusActive && |s.entries| == 1 && s.syncs == []
    requires fates(|s.trace|) == NotExecuted(CommFailure)
    ensures var (t, end) := CommitTransaction(s, fates, report);
            t.parts == s.parts && t.entries == s.entries && (!report ==> end == Returned)
  {
  }
}
