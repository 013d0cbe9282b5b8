/** What everybody else has done once one participant has issued its xacommit. */
module Effects {
  import opened OtsTypes
  import opened Participants
  import opened CoordinatorSpec
  import opened Protocol
  import opened Invariant
  import opened Runs
  import opened Growth
  import opened Passes
  import opened Outcomes
  import opened Atomicity
  import opened Forecasts
  import opened Endings
  import opened Assurances
  import opened Rejections

  predicate PreparedOrCommitting(p: Participant) {
    p.status == StatusPrepared || p.status == StatusCommitting
  }

  /** Every listed participant has prepared, and has issued its xacommit or heard nothing since. */
  predicate AllBound(entries: seq<Entry>, parts: map<Ref, Participant>) {
    forall j | 0 <= j < |entries| :: entries[j].r in parts && PreparedOrCommitting(parts[entries[j].r])
  }

  /** The coordinator is committing, or one of several participants has committed: then all are bound. */
  predicate Bound(s: Sys) {
    s.status == StatusCommitting || (|s.entries| >= 2 && !NobodyHasCommitted(s)) ==> AllBound(s.entries, s.parts)
  }

  /** Until the coordinator is committing, only a single resource can have committed. */
  lemma EarlyIsBound(s: Sys)
    requires Inv(s) && !Read(s.trace).late && s.status != StatusCommitting && s.status != StatusNoTransaction
    ensures Bound(s) && (|s.entries| >= 2 ==> NobodyHasCommitted(s))
  {
    NobodyMeansEmpty(s);
    StatusesReached(s);
    hide NobodyHasCommitted, VotesFit, PartsFit, Accepted;
  }

  lemma CommitKeepsBound(p: Participant, pass: Pass, fate: Fate)
    requires Commits(pass) && PreparedOrCommitting(p)
    ensures PreparedOrCommitting(AfterFate(p, pass, fate))
  {
  }

  lemma PassKeepsBound(entries: seq<Entry>, parts: map<Ref, Participant>, after: map<Ref, Participant>,
                       fates: Fates, pass: Pass, n: nat, k: nat)
    requires WellListed(entries, parts) && Commits(pass) && AllBound(entries, parts)
    requires PassEffect(entries, parts, after, fates, pass, n, 0, k)
    ensures AllBound(entries, after)
  {
    hide AfterFate, FateAt, PreparedOrCommitting, Eligible;
    forall j | 0 <= j < |entries| ensures entries[j].r in after && PreparedOrCommitting(after[entries[j].r]) {
      CommitKeepsBound(parts[entries[j].r], pass, FateAt(entries, fates, pass, n, j));
    }
  }

  lemma SameRefsBound(a: seq<Entry>, b: seq<Entry>, parts: map<Ref, Participant>)
    requires AllBound(a, parts) && |b| == |a| && forall j | 0 <= j < |a| :: b[j].r == a[j].r
    ensures AllBound(b, parts)
  {
  }

  lemma InPlaceBound(s: Sys, t: Sys)
    requires GrowsInPlace(s, t) && AllBound(s.entries, t.parts)
    ensures Bound(t)
  {
    assert forall j | 0 <= j < |s.entries| :: SameResource(s.entries[j], t.entries[j]);
    SameRefsBound(s.entries, t.entries, t.parts);
  }

  lemma SameCommittersBound(s: Sys, t: Sys)
    requires GrowsInPlace(s, t) && SameCommitters(s, t) && (|s.entries| >= 2 ==> NobodyHasCommitted(s))
    requires t.status != StatusCommitting
    ensures Bound(t)
  {
  }

  lemma RollbackBound(s: Sys, fates: Fates)
    requires Inv(s) && !Read(s.trace).late && s.status in {StatusActive, StatusMarkedRollback, StatusRollingBack}
    requires RollbackTransaction(s, fates).0.status == StatusNoTransaction
    ensures Bound(RollbackTransaction(s, fates).0)
  {
    InvIsDistinct(s);
    hide Inv, Read, RollbackTransaction, NobodyHasCommitted, SameCommitters, Bound;
    EarlyIsBound(s);
    RollbackCommitsNobody(s, fates);
    RollbackGrows(s, fates);
    SameCommittersBound(s, RollbackTransaction(s, fates).0);
  }

  lemma RepeatBound(s: Sys, fates: Fates, report: bool)
    requires Inv(s) && s.status == StatusCommitting && Bound(s)
    ensures Bound(CommitTransaction(s, fates, report).0)
  {
    hide Inv, CommitTransaction, StopOf, FateAt, StopEnd, PassEffect, AllBound, WellListed;
    RepeatForecast(s, fates, RetryCommit, report);
    CommitGrows(s, fates, report);
    var t, n := CommitTransaction(s, fates, report).0, |s.trace| + |Contacts(s.entries, RetryCommit, 0)|;
    var k := StopOf(s.entries, s.parts, fates, RetryCommit, n, 0);
    PassKeepsBound(s.entries, s.parts, t.parts, fates, RetryCommit, n, k);
    InPlaceBound(s, t);
  }

  lemma AbortCommitsNobody(s: Sys, fates: Fates, report: bool)
    requires Inv(s) && s.status == StatusActive && |s.entries| >= 2 && !PhaseOf(s, fates).AllFavour?
    ensures SameCommitters(s, CommitTransaction(s, fates, report).0)
  {
    InvIsDistinct(s);
    hide Inv, CommitTransaction, CommitPrepared, RollbackTransaction, PhaseOf, StallEnd, PrepareFrom, PhaseEffect;
    FirstPhaseForecast(s, fates);
    CommitUnfolds(s, fates, report);
    BeforeGrows(s, 0);
    var s0 := SetStatus(BeforeFrom(s, 0), StatusPreparing);
    PrepareCommitsNobody(s0, fates, 0);
    PrepareGrows(s0, fates, 0);
    var p := FirstPhase(s, fates).0;
    StillDistinct(s0, p);
    RollbackCommitsNobody(p, fates);
  }

  lemma TwoPhaseBound(s: Sys, fates: Fates, report: bool)
    requires Inv(s) && !Read(s.trace).late && s.status == StatusActive && |s.entries| >= 2
    ensures Bound(CommitTransaction(s, fates, report).0)
  {
    hide Inv, Read, CommitTransaction, StopOf, PassEffect, AllBound, WellListed, PhaseOf, VotesOf, PartsOf, Bound;
    hide NobodyHasCommitted, SameCommitters, CommitEnd, RollbackEnd, StallEnd, VotedUpTo;
    EarlyIsBound(s);
    CommitForecast(s, fates, report);
    CommitGrows(s, fates, report);
    var t, n := CommitTransaction(s, fates, report).0, CommitsUntil(s);
    if PhaseOf(s, fates).AllFavour? {
      var entries, parts := VotesOf(s, fates), PartsOf(s, fates);
      FavouredIsPrepared(s, fates);
      PreparedIsBound(entries, parts);
      PassKeepsBound(entries, parts, t.parts, fates, FirstCommit, n, StopOf(entries, parts, fates, FirstCommit, n, 0));
      SameRefsBound(entries, s.entries, t.parts);
      InPlaceBound(s, t);
    } else {
      AbortCommitsNobody(s, fates, report);
      SameCommittersBound(s, t);
    }
  }

  lemma PreparedIsBound(entries: seq<Entry>, parts: map<Ref, Participant>)
    requires AllPrepared(entries, parts)
    ensures AllBound(entries, parts)
  {
  }

  lemma CommitBound(s: Sys, fates: Fates, report: bool)
    requires Inv(s) && !Read(s.trace).late && Bound(s)
    requires CommitTransaction(s, fates, report).0.status == StatusNoTransaction
    ensures Bound(CommitTransaction(s, fates, report).0)
  {
    hide Inv, Read, AllBound, NobodyHasCommitted, TwoPhase, RollbackTransaction, CommitAgain;
    StatusesReached(s);
    match s.status
    case StatusActive =>
      BeforeGrows(s, 0);
      if |s.entries| >= 2 {
        TwoPhaseBound(s, fates, report);
      }
    case StatusMarkedRollback => RollbackBound(s, fates);
    case StatusCommitting => RepeatBound(s, fates, report);
    case _ =>
  }

  /** Operations other than these two that end in Committing or NoTransaction have changed nothing. */
  lemma OthersChangeNothing(s: Sys, fates: Fates, op: Op)
    requires !op.OpCommit? && !op.OpRollback?
    requires Step(s, fates, op).0.status == StatusCommitting || Step(s, fates, op).0.status == StatusNoTransaction
    ensures Step(s, fates, op).0 == s
  {
    hide Enlist;
    if op.OpRegister? {
      RegisterKeepsStatus(s, fates, op.r);
    }
  }

  lemma StepBound(s: Sys, fates: Fates, op: Op)
    requires Resting(s) && !Read(s.trace).late && CalmNow(s, op) && Bound(s)
    ensures Bound(Step(s, fates, op).0)
  {
    hide Inv, Read, Bound, NobodyHasCommitted, CommitTransaction, RollbackTransaction, Register;
    CalmStep(s, fates, op);
    var t := Step(s, fates, op).0;
    if t.status != StatusCommitting && t.status != StatusNoTransaction {
      EarlyIsBound(t);
    } else {
      match op
      case OpCommit(report) => CommittingOrOver(s, fates, report);
      case OpRollback => RollbackOver(s, fates);
      case _ => OthersChangeNothing(s, fates, op);
    }
  }

  lemma RollbackOver(s: Sys, fates: Fates)
    requires Inv(s) && !Read(s.trace).late && Bound(s)
    requires RollbackTransaction(s, fates).0.status in {StatusCommitting, StatusNoTransaction}
    ensures Bound(RollbackTransaction(s, fates).0)
  {
    hide Inv, Read, Bound, Sweep;
    StatusesReached(s);
    RollbackKeeps(s, fates);
    if s.status in {StatusActive, StatusMarkedRollback, StatusRollingBack} {
      RollbackNeverCommits(s, fates);
      RollbackBound(s, fates);
    }
  }

  lemma RollbackNeverCommits(s: Sys, fates: Fates)
    requires Inv(s) && s.status in {StatusActive, StatusMarkedRollback, StatusRollingBack}
    ensures RollbackTransaction(s, fates).0.status != StatusCommitting
  {
    hide Inv, Sweep, RollbackTransaction, StopOf, PassEffect, StopEnd, FateAt;
    if s.status == StatusRollingBack {
      RepeatForecast(s, fates, RetryRollback, false);
    } else {
      RollbackForecast(s, fates);
    }
  }

  lemma CommittingOrOver(s: Sys, fates: Fates, report: bool)
    requires Inv(s) && !Read(s.trace).late && Bound(s)
    requires CommitTransaction(s, fates, report).0.status in {StatusCommitting, StatusNoTransaction}
    ensures Bound(CommitTransaction(s, fates, report).0)
  {
    hide Inv, Read, Bound, TwoPhase, RollbackTransaction, CommitAgain, CommitOnlyResource, CommitTransaction;
    if CommitTransaction(s, fates, report).0.status == StatusNoTransaction {
      CommitBound(s, fates, report);
    } else if s.status == StatusActive && |s.entries| >= 2 {
      TwoPhaseBound(s, fates, report);
    } else if s.status == StatusCommitting {
      RepeatBound(s, fates, report);
    } else {
      OnlyTheseCommit(s, fates, report);
    }
  }

  lemma OnlyTheseCommit(s: Sys, fates: Fates, report: bool)
    requires Inv(s) && CommitTransaction(s, fates, report).0.status == StatusCommitting
    ensures s.status == StatusCommitting || (s.status == StatusActive && |s.entries| >= 2)
  {
    hide Inv, Read, TwoPhase, RollbackTransaction, CommitAgain;
    BeforeGrows(s, 0);
    if s.status == StatusMarkedRollback {
      RollbackNeverCommits(s, fates);
    }
  }

  lemma {:induction false} RunBound(s: Sys, fates: Fates, ops: seq<Op>)
    requires Resting(s) && !Read(s.trace).late && Calm(s, fates, ops) && Bound(s)
    ensures Bound(Run(s, fates, ops))
    decreases |ops|
  {
    hide Inv, Read, Bound, CalmNow, Step;
    if ops != [] {
      CalmStep(s, fates, ops[0]);
      StepBound(s, fates, ops[0]);
      RunBound(Step(s, fates, ops[0]).0, fates, ops[1..]);
    }
  }

  /** Once one participant has issued its xacommit, no other of the transaction has rolled back:
      in every calm run each of them has carried out its work, or has issued an xacommit that failed, or
      is still prepared and in doubt, because no commit message was executed there. */
  lemma CommitLeavesOnlyDoubt(s: Sys, fates: Fates, ops: seq<Op>, a: Ref, b: Ref)
    requires Initial(s) && Calm(s, fates, ops)
    requires HasCommitted(Run(s, fates, ops), a) && Find(Run(s, fates, ops).entries, b) < |Run(s, fates, ops).entries|
    ensures var t := Run(s, fates, ops);
            && !HasAborted(t, b) && (HasCommitted(t, b) || InDoubt(t, b))
            && (!HasApplied(t, b) ==> CommitFailed(t, b) || InDoubt(t, b))
  {
    hide Run, Calm, Bound;
    InitialFits(s);
    EarlyIsBound(s);
    CalmRunIsNotLate(s, fates, ops);
    RunBound(s, fates, ops);
    BoundMeans(Run(s, fates, ops), a, b);
  }

  lemma BoundMeans(s: Sys, a: Ref, b: Ref)
    requires Inv(s) && Bound(s) && HasCommitted(s, a) && Find(s.entries, b) < |s.entries|
    ensures !HasAborted(s, b) && (HasCommitted(s, b) || InDoubt(s, b))
  {
    CommittedIsListed(s, a);
    var i, j := Find(s.entries, a), Find(s.entries, b);
    hide Inv;
    PartIsConsistent(s, a);
    if |s.entries| >= 2 {
      assert !NobodyHasCommitted(s);
      PartIsConsistent(s, s.entries[j].r);
    } else {
      assert i == j;
    }
  }

  lemma CommittedIsListed(s: Sys, a: Ref)
    requires Inv(s) && HasCommitted(s, a)
    ensures Find(s.entries, a) < |s.entries|
  {
    CommandsShowStatus(s, a);
    assert a in Read(s.trace).joined;
  }
}
