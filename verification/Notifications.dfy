/** When the synchronization objects are told that the transaction is over. */
module Notifications {
  import opened OtsTypes
  import opened CoordinatorSpec
  import opened Protocol
  import opened Invariant
  import opened Runs
  import opened Growth
  import opened Histories
  import opened Passes
  import opened Outcomes
  import opened Forecasts
  import opened Endings

  /** The operation, if it ends the transaction, tells the synchronization objects. Not told are those
      of a rollback or abort in which an answer is lost, of a commit without resources, and of a
      repeated commit. */
  predicate Notifies(s: Sys, fates: Fates, op: Op)
    requires WellListed(s.entries, s.parts) && WellListed(VotesOf(s, fates), PartsOf(s, fates))
  {
    match op
    case OpCommit(_) =>
      (match s.status
       case StatusActive =>
         |s.entries| >= 2 &&
         (match PhaseOf(s, fates)
          case AllFavour => true
          case StopsAt(k) =>
            RollbackEnd(VotesOf(s, fates), PartsOf(s, fates), fates, AbortUntil(s, fates, k)) == Returned
          case StallsAt(_) => false)
       case StatusMarkedRollback => RollbackEnd(s.entries, s.parts, fates, RollbackUntil(s)) == Returned
       case _ => false)
    case OpRollback =>
      (match s.status
       case StatusActive | StatusMarkedRollback => RollbackEnd(s.entries, s.parts, fates, RollbackUntil(s)) == Returned
       case StatusRollingBack => true
       case _ => false)
    case _ => false
  }

  /** How many objects have been told. */
  function Told(s: Sys): nat {
    Read(s.trace).notified
  }

  lemma {:induction false} AfterTells(s: Sys, i: nat)
    requires Told(s) == i <= |s.syncs|
    ensures Told(AfterFrom(s, i)) == |s.syncs|
    decreases |s.syncs| - i
  {
    if i < |s.syncs| {
      var e := AfterCompletion(s.syncs[i], s.status);
      AcceptedExtended(s.trace, e);
      AfterTells(Emit(s, e), i + 1);
    }
  }

  /** The end of the transaction, without notification and with it. */
  lemma EndTells(s: Sys)
    requires Inv(s) && (s.status == StatusCommitting || s.status == StatusRollingBack)
    ensures var t := SetStatus(s, StatusNoTransaction);
            && Told(t) == 0 && t.syncs == s.syncs
            && Told(AfterFrom(t, 0)) == |s.syncs| && AfterFrom(t, 0).syncs == s.syncs
  {
    StepToNoTransaction(s);
    hide Inv;
    AfterTells(SetStatus(s, StatusNoTransaction), 0);
    AfterGrows(SetStatus(s, StatusNoTransaction), 0);
  }

  lemma RollbackTells(s: Sys, fates: Fates)
    requires Inv(s) && (s.status == StatusActive || s.status == StatusMarkedRollback)
    requires RollbackTransaction(s, fates).0.status == StatusNoTransaction
    ensures var (t, end) := RollbackTransaction(s, fates);
            t.syncs == s.syncs && Told(t) == if end == Returned then |s.syncs| else 0
  {
    hide Inv, Sweep, RollbackTransaction, AfterFrom, Read, Told;
    StepToRollingBack(s);
    var s0 := SetStatus(s, StatusRollingBack);
    SweepKeeps(s0, fates, FirstRollback, 0, false);
    SweepGrows(s0, fates, FirstRollback, 0, false);
    RollbackUnfolds(s, fates);
    EndTells(Sweep(s0, fates, FirstRollback, 0, false).0);
  }

  lemma RepeatTells(s: Sys, fates: Fates, pass: Pass, report: bool)
    requires Inv(s) && Repeats(s, pass) && Repeat(s, fates, pass, report).0.status == StatusNoTransaction
    ensures var t := Repeat(s, fates, pass, report).0;
            t.syncs == s.syncs && Told(t) == if pass == RetryRollback then |s.syncs| else 0
  {
    hide Inv, Sweep, Repeat, AfterFrom, Read, Told;
    SweepKeeps(s, fates, pass, 0, false);
    SweepGrows(s, fates, pass, 0, false);
    RepeatUnfolds(s, fates, pass, report);
    EndTells(Sweep(s, fates, pass, 0, false).0);
  }

  lemma CommitPreparedTells(s: Sys, fates: Fates, report: bool)
    requires Inv(s) && s.status == StatusPreparing && CommitPrepared(s, fates, report).0.status == StatusNoTransaction
    requires Read(s.trace).favourable && |Read(s.trace).prepared| == |s.entries|
    ensures var t := CommitPrepared(s, fates, report).0; t.syncs == s.syncs && Told(t) == |s.syncs|
  {
    hide Inv, Sweep, AfterFrom, Read, Told;
    StepToCommitting(s);
    var s0 := SetStatus(s, StatusCommitting);
    SweepKeeps(s0, fates, FirstCommit, 0, false);
    SweepGrows(s0, fates, FirstCommit, 0, false);
    EndTells(Sweep(s0, fates, FirstCommit, 0, false).0);
  }

  lemma TwoPhaseTells(s: Sys, fates: Fates, report: bool)
    requires Inv(s) && s.status == StatusActive && |s.entries| >= 2
    requires CommitTransaction(s, fates, report).0.status == StatusNoTransaction
    ensures WellListed(s.entries, s.parts) && WellListed(VotesOf(s, fates), PartsOf(s, fates))
    ensures var t := CommitTransaction(s, fates, report).0;
            t.syncs == s.syncs && Told(t) == if Notifies(s, fates, OpCommit(report)) then |s.syncs| else 0
  {
    hide Inv, Read, FirstPhase, CommitTransaction, CommitPrepared, RollbackTransaction, PhaseOf, Told, StallEnd;
    hide VotesOf, PartsOf, WellListed, PhaseEffect, RollsBack, CommitsAll, CommitEnd, RollbackEnd, AbortUntil;
    CommitForecast(s, fates, report);
    FirstPhaseForecast(s, fates);
    FirstPhaseKeeps(s, fates);
    FirstPhaseSyncs(s, fates);
    CommitUnfolds(s, fates, report);
    var p := FirstPhase(s, fates).0;
    match PhaseOf(s, fates)
    case AllFavour => CommitPreparedTells(p, fates, report);
    case StopsAt(k) =>
      RollbackTells(p, fates);
      RollbackForecast(p, fates);
      AbortEndIsTold(s, p, fates, k);
    case StallsAt(_) =>
  }

  lemma AbortEndIsTold(s: Sys, p: Sys, fates: Fates, k: nat)
    requires Inv(s) && s.status == StatusActive && |s.entries| >= 2
    requires p == FirstPhase(s, fates).0 && PhaseOf(s, fates) == StopsAt(k)
    ensures p.entries == VotesOf(s, fates) && p.parts == PartsOf(s, fates)
    ensures RollbackUntil(p) == AbortUntil(s, fates, k)
  {
    hide Inv, FirstPhase, PhaseOf, Contacts, PhaseEffect, VotesOf, PartsOf;
    FirstPhaseForecast(s, fates);
    VotesAreExact(s, p, fates);
    PartsAreExact(s, p, fates);
  }

  lemma FirstPhaseSyncs(s: Sys, fates: Fates)
    ensures FirstPhase(s, fates).0.syncs == s.syncs
  {
    BeforeGrows(s, 0);
    PrepareGrows(SetStatus(BeforeFrom(s, 0), StatusPreparing), fates, 0);
  }

  lemma EmptyTells(s: Sys, fates: Fates, report: bool)
    requires Inv(s) && s.status == StatusActive && s.entries == []
    ensures var t := CommitTransaction(s, fates, report).0; t.syncs == s.syncs && Told(t) == 0
  {
    hide Inv;
    BeforeKeeps(s, 0);
    StepToNoTransaction(BeforeFrom(s, 0));
  }

  lemma OthersEndNothing(s: Sys, fates: Fates, op: Op)
    requires s.status != StatusNoTransaction && Step(s, fates, op).0.status == StatusNoTransaction
    ensures op.OpCommit? || op.OpRollback?
    ensures op == OpRollback ==> s.status in {StatusActive, StatusMarkedRollback, StatusRollingBack}
    ensures op.OpCommit? ==>
              s.status in {StatusMarkedRollback, StatusCommitting} || (s.status == StatusActive && |s.entries| != 1)
  {
    hide RollbackActive, RollbackAgain, TwoPhase, CommitAgain;
    BeforeGrows(s, 0);
  }

  lemma EndingTells(s: Sys, fates: Fates, op: Op)
    requires Inv(s) && s.status != StatusNoTransaction && Step(s, fates, op).0.status == StatusNoTransaction
    ensures WellListed(s.entries, s.parts) && WellListed(VotesOf(s, fates), PartsOf(s, fates))
    ensures var t := Step(s, fates, op).0;
            t.syncs == s.syncs && Told(t) == if Notifies(s, fates, op) then |s.syncs| else 0
  {
    hide Inv, Told, CommitActive, RollbackTransaction, CommitAgain, VotesOf, PartsOf, PhaseOf, RollsBack, RollbackEnd;
    hide RollbackUntil, AbortUntil, WellListed, Register;
    InvIsListed(s);
    VotesAreListed(s, fates);
    OthersEndNothing(s, fates, op);
    match op
    case OpRollback =>
      if s.status == StatusRollingBack {
        RepeatTells(s, fates, RetryRollback, false);
      } else {
        RollbackForecast(s, fates);
        RollbackTells(s, fates);
      }
    case OpCommit(report) =>
      match s.status {
        case StatusActive =>
          if |s.entries| == 0 {
            EmptyTells(s, fates, report);
          } else {
            TwoPhaseTells(s, fates, report);
          }
        case StatusMarkedRollback =>
          RollbackForecast(s, fates);
          RollbackTells(s, fates);
        case _ => RepeatTells(s, fates, RetryCommit, report);
      }
    case _ =>
  }

  /** The operation that ends a transaction calls after_completion on all registered objects, once and
      in order, or on none, and exactly the condition above says which. */
  lemma AfterPassIff(s: Sys, fates: Fates, op: Op)
    requires Resting(s) && s.status != StatusNoTransaction && Step(s, fates, op).0.status == StatusNoTransaction
    ensures WellListed(s.entries, s.parts) && WellListed(VotesOf(s, fates), PartsOf(s, fates))
    ensures var t := Step(s, fates, op).0;
            Notified(t.trace) == if Notifies(s, fates, op) then SyncsJoined(t.trace) else []
  {
    hide Inv, Step, Notifies, VotesOf, PartsOf, WellListed, Notified, SyncsJoined;
    EndingTells(s, fates, op);
    StepKeeps(s, fates, op);
    var t := Step(s, fates, op).0;
    AcceptedNow(t);
    AfterPassIsOne(t.trace);
    SyncsAreRead(t);
  }

  lemma SyncsAreRead(s: Sys)
    requires Inv(s)
    ensures Read(s.trace).syncs == s.syncs
  {
  }
}
