/** A rule that keeps clients safe: never to commit an Active transaction with exactly one resource. */
module SafeClients {
  import opened OtsTypes
  import opened CoordinatorSpec
  import opened Protocol
  import opened Invariant
  import opened Runs
  import opened Growth
  import opened Outcomes
  import opened Atomicity
  import opened Blocking

  /** Commit leaves Active at once, except with a single resource. */
  lemma CommitLeavesActive(s: Sys, fates: Fates, report: bool)
    requires Inv(s) && s.status == StatusActive && |s.entries| != 1
    ensures CommitTransaction(s, fates, report).0.status != StatusActive
  {
    BeforeGrows(s, 0);
    if |s.entries| >= 2 {
      hide Inv, Read;
      FirstPhaseKeeps(s, fates);
      CommitUnfolds(s, fates, report);
      hide CommitTransaction, FirstPhase;
      var p := FirstPhase(s, fates).0;
      NeverBackToActive(p, fates, report);
    }
  }

  lemma NeverBackToActive(s: Sys, fates: Fates, report: bool)
    requires Inv(s) && (s.status == StatusPreparing || s.status == StatusMarkedRollback)
    ensures CommitPrepared(s, fates, report).0.status != StatusActive
    ensures s.status == StatusMarkedRollback ==> RollbackInstead(s, fates).0.status != StatusActive
  {
    if s.status == StatusMarkedRollback {
      RollbackOutcome(s, fates);
    }
    hide Inv;
    var s0 := SetStatus(s, StatusCommitting);
    SweepStatus(s0, fates, FirstCommit, 0, false);
    AfterGrows(SetStatus(Sweep(s0, fates, FirstCommit, 0, false).0, StatusNoTransaction), 0);
  }

  lemma {:induction false} SweepStatus(s: Sys, fates: Fates, pass: Pass, i: nat, heuristics: bool)
    ensures Sweep(s, fates, pass, i, heuristics).0.status == s.status
    decreases |s.entries| - i
  {
    hide Call;
    if i < |s.entries| {
      if !Eligible(pass, s.entries[i].rv) {
        SweepStatus(s, fates, pass, i + 1, heuristics);
      } else {
        var (t, reply) := Call(s, fates, PassRequest(pass), s.entries[i].r);
        if reply == Done {
          SweepStatus(ChangeResourceVote(t, s.entries[i].r, Settled(pass)), fates, pass, i + 1, heuristics);
        } else if Forgiven(pass, reply) {
          SweepStatus(t, fates, pass, i + 1, true);
        }
      }
    }
  }

  /** While a transaction is Active nobody has committed. */
  predicate ActiveIsUntouched(s: Sys) {
    s.status == StatusActive ==> Read(s.trace).committed == {}
  }

  lemma UntouchedStep(s: Sys, fates: Fates, op: Op)
    requires Resting(s) && ActiveIsUntouched(s) && !CommitsAlone(s, op)
    ensures ActiveIsUntouched(Step(s, fates, op).0)
  {
    hide Inv, Read;
    match op
    case OpRegister(r) =>
      if s.status == StatusActive {
        RegistrationIsLate(s, fates, r);
      }
    case OpRegisterSync(x) =>
      AcceptedExtended(s.trace, SyncJoined(x));
      NextKeepsCommitted(Read(s.trace), SyncJoined(x));
    case OpCommit(report) =>
      if s.status == StatusActive {
        CommitLeavesActive(s, fates, report);
      } else if s.status == StatusMarkedRollback {
        RollbackOutcome(s, fates);
      } else if s.status == StatusCommitting {
        SweepStatus(s, fates, RetryCommit, 0, false);
      }
    case OpRollback =>
      if s.status == StatusActive || s.status == StatusMarkedRollback {
        RollbackOutcome(s, fates);
      } else if s.status == StatusRollingBack {
        SweepStatus(s, fates, RetryRollback, 0, false);
        AfterGrows(SetStatus(Sweep(s, fates, RetryRollback, 0, false).0, StatusNoTransaction), 0);
      }
    case _ =>
  }

  lemma NextKeepsCommitted(v: View, e: Event)
    requires !e.Called?
    ensures Next(v, e).committed == v.committed
  {
  }

  lemma {:induction false} NeverAloneIsCalm(s: Sys, fates: Fates, ops: seq<Op>)
    requires Resting(s) && ActiveIsUntouched(s) && NeverCommitsAlone(s, fates, ops)
    ensures Calm(s, fates, ops)
    decreases |ops|
  {
    if ops != [] {
      NobodyMeansEmpty(s);
      hide Inv, Read, Step;
      UntouchedStep(s, fates, ops[0]);
      StepKeeps(s, fates, ops[0]);
      NeverAloneIsCalm(Step(s, fates, ops[0]).0, fates, ops[1..]);
    }
  }

  /** A client that never commits an Active transaction with exactly one resource gets atomic
      commitment in every environment. */
  lemma AtomicWithoutLoneCommit(s: Sys, fates: Fates, ops: seq<Op>)
    requires Initial(s) && NeverCommitsAlone(s, fates, ops)
    ensures Atomic(Run(s, fates, ops))
  {
    InitialFits(s);
    NeverAloneIsCalm(s, fates, ops);
    AtomicCommitment(s, fates, ops);
  }
}
