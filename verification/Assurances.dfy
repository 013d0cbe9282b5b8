/** What a client may conclude from a normal return of commit. */
module Assurances {
  import opened OtsTypes
  import opened Participants
  import opened CoordinatorSpec
  import opened Protocol
  import opened Invariant
  import opened Runs
  import opened Growth
  import opened Passes
  import opened Outcomes
  import opened Atomicity
  import opened Forecasts
  import opened Endings

  lemma {:induction false} DecisionIsKept(trace: seq<Event>, j: nat, k: nat)
    requires Accepted(trace) && j <= k <= |trace| && !Read(trace[..k]).late && Read(trace[..j]).decision != Undecided
    ensures Read(trace[..k]).decision == Read(trace[..j]).decision
    decreases k - j
  {
    hide Read, Next, Follows, Accepted;
    if j < k {
      LateStays(trace, k - 1, k);
      DecisionIsKept(trace, j, k - 1);
      AcceptedAt(trace, k - 1);
      DecidedOnce(Read(trace[..k - 1]), trace[k - 1]);
    }
  }

  lemma DecidedOnce(v: View, e: Event)
    requires Follows(v, e) && !Next(v, e).late && v.decision != Undecided
    ensures Next(v, e).decision == v.decision
  {
  }

  lemma CommittingHasDecided(s: Sys)
    requires Inv(s) && s.status == StatusCommitting
    ensures Read(s.trace).decision == ToCommit
  {
  }

  lemma AbortedNeedsDecision(s: Sys)
    requires Inv(s) && !Read(s.trace).late && Read(s.trace).decision == ToCommit
    ensures forall r :: !HasAborted(s, r)
  {
    forall r ensures !HasAborted(s, r) {
      if r in s.parts {
        CommandsShowStatus(s, r);
      }
    }
  }

  lemma CommittingIsNotLate(s: Sys)
    requires Inv(s) && s.status == StatusCommitting
    ensures !Read(s.trace).late
  {
  }

  /** Once a coordinator was committing, nobody has rolled back or will. */
  lemma CommittingMeansNobodyAborts(s: Sys, t: Sys)
    requires Inv(s) && s.status == StatusCommitting && Inv(t) && s.trace <= t.trace && |t.entries| == |s.entries|
    ensures forall r :: !HasAborted(t, r)
  {
    hide Inv, Read, HasAborted;
    CommittingIsNotLate(s);
    UnchangedListIsNotLate(s, t);
    AcceptedNow(t);
    CommittingHasDecided(s);
    assert t.trace[..|s.trace|] == s.trace && t.trace[..|t.trace|] == t.trace;
    DecisionIsKept(t.trace, |s.trace|, |t.trace|);
    AbortedNeedsDecision(t);
  }

  /** The point at which a successful two-phase commit starts committing. */
  lemma SuccessCommits(s: Sys, fates: Fates, report: bool) returns (m: Sys)
    requires Inv(s) && s.status == StatusActive && |s.entries| >= 2
    requires CommitTransaction(s, fates, report).1 == Returned
    ensures Inv(m) && m.status == StatusCommitting && m.trace <= CommitTransaction(s, fates, report).0.trace
    ensures |m.entries| == |s.entries|
  {
    hide Inv, FirstPhase, CommitTransaction, CommitPrepared, RollbackTransaction, Read, PhaseOf;
    FirstPhaseKeeps(s, fates);
    FirstPhaseForecast(s, fates);
    CommitUnfolds(s, fates, report);
    var p := FirstPhase(s, fates).0;
    m := SetStatus(p, StatusCommitting);
    StepToCommitting(p);
    CommittingGoesOn(p, fates, report);
  }

  lemma CommittingGoesOn(s: Sys, fates: Fates, report: bool)
    ensures SetStatus(s, StatusCommitting).trace <= CommitPrepared(s, fates, report).0.trace
  {
    var s0 := SetStatus(s, StatusCommitting);
    SweepGrows(s0, fates, FirstCommit, 0, false);
    AfterGrows(SetStatus(Sweep(s0, fates, FirstCommit, 0, false).0, StatusNoTransaction), 0);
  }

  /** What a normal return of commit means, from any state: nothing, if the transaction was over or
      stuck before; nothing about a single resource; and otherwise that the transaction is over and
      nobody has rolled back. It does not mean that every commit has succeeded: see
      SuccessHidesMissingIff. */
  lemma SuccessMeansNobodyAborted(s: Sys, fates: Fates, report: bool)
    requires Resting(s) && CommitTransaction(s, fates, report).1 == Returned
    ensures var t := CommitTransaction(s, fates, report).0;
            if s.status == StatusNoTransaction || s.status == StatusPreparing then t == s
            else if s.status == StatusActive && |s.entries| == 1 then t.status == StatusActive
            else t.status == StatusNoTransaction && forall r :: !HasAborted(t, r)
  {
    SuccessEnds(s, fates, report);
    var t := CommitTransaction(s, fates, report).0;
    StepKeeps(s, fates, OpCommit(report));
    CommitGrows(s, fates, report);
    hide Inv, Read, CommitTransaction, HasAborted;
    if s.status == StatusActive && |s.entries| >= 2 {
      var m := SuccessCommits(s, fates, report);
      CommittingMeansNobodyAborts(m, t);
    } else if s.status == StatusCommitting {
      CommittingMeansNobodyAborts(s, t);
    } else if s.status == StatusActive && s.entries == [] {
      NobodyListedNobodyMoved(t);
    }
  }

  lemma NobodyListedNobodyMoved(s: Sys)
    requires Inv(s) && s.entries == []
    ensures forall r :: !HasAborted(s, r) && !HasCommitted(s, r)
  {
    forall r ensures !HasAborted(s, r) && !HasCommitted(s, r) {
      if r in s.parts {
        CommandsShowStatus(s, r);
      }
    }
  }

  lemma SuccessEnds(s: Sys, fates: Fates, report: bool)
    requires Inv(s) && CommitTransaction(s, fates, report).1 == Returned
    ensures var t := CommitTransaction(s, fates, report).0;
            if s.status == StatusNoTransaction || s.status == StatusPreparing then t == s
            else if s.status == StatusActive && |s.entries| == 1 then t.status == StatusActive
            else s.status in {StatusActive, StatusCommitting} && t.status == StatusNoTransaction
  {
    StatusesReached(s);
    hide Inv, Read;
    if s.status == StatusActive {
      BeforeGrows(s, 0);
      if |s.entries| >= 2 {
        FirstPhaseKeeps(s, fates);
        CommitUnfolds(s, fates, report);
        CommittedUnfolds(FirstPhase(s, fates).0, fates, report);
      }
    }
  }

  lemma StatusesReached(s: Sys)
    requires Inv(s)
    ensures Rank(s.status) <= 4
  {
    ReadsStatus(s);
    StatusIsRanked(s.trace);
  }

  lemma CommittedUnfolds(s: Sys, fates: Fates, report: bool)
    ensures var (t, end) := CommitPrepared(s, fates, report); end == Returned ==> t.status == StatusNoTransaction
  {
    var s1 := Sweep(SetStatus(s, StatusCommitting), fates, FirstCommit, 0, false).0;
    AfterGrows(SetStatus(s1, StatusNoTransaction), 0);
  }

  // ------------------------------------------------------------------
  // Commits that failed
  // ------------------------------------------------------------------

  predicate HasApplied(s: Sys, r: Ref) {
    r in s.parts && s.parts[r].applied
  }

  /** The participant has issued its xacommit, and the database has not carried it out. */
  predicate CommitFailed(s: Sys, r: Ref) {
    HasCommitted(s, r) && !HasApplied(s, r)
  }

  /** An entry marked as committed stands for an xacommit that was issued. */
  predicate Truthful(s: Sys) {
    forall i | 0 <= i < |s.entries| :: s.entries[i].rv == RvCommitted ==> HasCommitted(s, s.entries[i].r)
  }

  lemma CommitAnswered(s: Sys, fates: Fates, r: Ref)
    requires forall x | x in s.parts :: Consistent(s.parts[x])
    ensures var (t, reply) := Call(s, fates, Commit, r);
            && (reply == Done ==> HasCommitted(t, r))
            && (forall x | HasCommitted(s, x) :: HasCommitted(t, x))
  {
  }

  lemma DoneMeansCommitted(s: Sys, fates: Fates, r: Ref)
    requires Inv(s)
    ensures var (t, reply) := Call(s, fates, Commit, r);
            && (reply == Done ==> HasCommitted(t, r))
            && (forall x | HasCommitted(s, x) :: HasCommitted(t, x))
  {
    hide Call, HasCommitted;
    CommitAnswered(s, fates, r);
  }

  /** After the commit message to position i. */
  function Committed(s: Sys, fates: Fates, i: nat): Sys
    requires i < |s.entries|
  {
    var (t, reply) := Call(s, fates, Commit, s.entries[i].r);
    if reply == Done then SetVoteAt(t, i, RvCommitted) else t
  }

  lemma CommitStep(s: Sys, fates: Fates, pass: Pass, i: nat, heuristics: bool)
    requires Inv(s) && s.status == StatusCommitting && Commits(pass)
    requires i < |s.entries| && Eligible(pass, s.entries[i].rv)
    ensures var reply, u := Call(s, fates, Commit, s.entries[i].r).1, Committed(s, fates, i);
            && Inv(u) && u.status == StatusCommitting && |u.entries| == |s.entries|
            && (Truthful(s) ==> Truthful(u))
            && (reply == Done || Forgiven(pass, reply) ==>
                  Sweep(s, fates, pass, i, heuristics) == Sweep(u, fates, pass, i + 1, heuristics || reply != Done))
            && (reply != Done && !Forgiven(pass, reply) ==>
                  Sweep(s, fates, pass, i, heuristics) == (u, heuristics, Escape(reply)) && Escape(reply) != Returned)
  {
    InvIsDistinct(s);
    hide Inv, Call, Sweep, HasCommitted, Truthful;
    SweepStep(s, fates, pass, i);
    SweepUnfolds(s, fates, pass, i, heuristics);
    DoneMeansCommitted(s, fates, s.entries[i].r);
    var (t, reply) := Call(s, fates, Commit, s.entries[i].r);
    TruthfulStep(s, t, i, reply == Done);
  }

  /** Telling the truth about position i as well. */
  lemma TruthfulStep(s: Sys, t: Sys, i: nat, done: bool)
    requires i < |s.entries| && t.entries == s.entries && (forall x | HasCommitted(s, x) :: HasCommitted(t, x))
    requires done ==> HasCommitted(t, s.entries[i].r)
    ensures Truthful(s) ==> Truthful(if done then SetVoteAt(t, i, RvCommitted) else t)
  {
    hide HasCommitted;
    var u := if done then SetVoteAt(t, i, RvCommitted) else t;
    SameParts(t, u);
  }

  lemma {:induction false} CommitPassIsTruthful(s: Sys, fates: Fates, pass: Pass, i: nat, heuristics: bool)
    requires Inv(s) && s.status == StatusCommitting && Commits(pass) && Truthful(s)
    ensures Truthful(Sweep(s, fates, pass, i, heuristics).0)
    decreases |s.entries| - i
  {
    hide Inv, Call, Sweep, Truthful, Committed, Forgiven;
    SweepSkips(s, fates, pass, i, heuristics);
    if i < |s.entries| {
      if !Eligible(pass, s.entries[i].rv) {
        CommitPassIsTruthful(s, fates, pass, i + 1, heuristics);
      } else {
        CommitStep(s, fates, pass, i, heuristics);
        var reply := Call(s, fates, Commit, s.entries[i].r).1;
        if reply == Done || Forgiven(pass, reply) {
          CommitPassIsTruthful(Committed(s, fates, i), fates, pass, i + 1, heuristics || reply != Done);
        }
      }
    }
  }

  lemma SameParts(s: Sys, t: Sys)
    requires t.parts == s.parts
    ensures forall r :: (HasCommitted(t, r) <==> HasCommitted(s, r)) && (CommitFailed(t, r) <==> CommitFailed(s, r))
    ensures Truthful(s) && t.entries == s.entries ==> Truthful(t)
  {
  }

  /** Only in these statuses can an entry be marked as committed. */
  lemma OthersAreTruthful(s: Sys)
    requires Inv(s) && s.status != StatusCommitting && s.status != StatusNoTransaction
    ensures Truthful(s)
  {
    StatusesReached(s);
    hide Read, Accepted, PartsFit, FieldsFit, DecisionFits, HasCommitted;
  }

  lemma CommitIsTruthful(s: Sys, fates: Fates, report: bool)
    requires Resting(s) && Truthful(s)
    ensures Truthful(CommitTransaction(s, fates, report).0)
  {
    hide Inv, Read, Truthful, Sweep, TwoPhase, RollbackTransaction;
    var t := CommitTransaction(s, fates, report).0;
    StepKeeps(s, fates, OpCommit(report));
    if t.status != StatusCommitting && t.status != StatusNoTransaction {
      OthersAreTruthful(t);
    } else if s.status == StatusActive {
      BeforeKeeps(s, 0);
      if |s.entries| == 0 {
        EmptyIsTruthful(t);
      } else if |s.entries| >= 2 {
        TwoPhaseIsTruthful(s, fates, report);
      }
    } else if s.status == StatusMarkedRollback {
      RollbackIsTruthful(s, fates);
    } else if s.status == StatusCommitting {
      CommitPassIsTruthful(s, fates, RetryCommit, 0, false);
      var u := Sweep(s, fates, RetryCommit, 0, false).0;
      SameParts(u, SetStatus(u, StatusNoTransaction));
    }
  }

  lemma EmptyIsTruthful(s: Sys)
    requires s.entries == []
    ensures Truthful(s)
  {
  }

  lemma TwoPhaseIsTruthful(s: Sys, fates: Fates, report: bool)
    requires Inv(s) && s.status == StatusActive && |s.entries| >= 2
    ensures Truthful(CommitTransaction(s, fates, report).0)
  {
    hide Inv, Read, Truthful, Sweep, RollbackTransaction, CommitTransaction, FirstPhase, AfterFrom;
    FirstPhaseKeeps(s, fates);
    CommitUnfolds(s, fates, report);
    var (p, end) := FirstPhase(s, fates);
    OthersAreTruthful(p);
    if p.status == StatusMarkedRollback {
      RollbackIsTruthful(p, fates);
    } else if end == Returned {
      StepToCommitting(p);
      SetStatusIsTruthful(p, StatusCommitting);
      var p0 := SetStatus(p, StatusCommitting);
      CommitPassIsTruthful(p0, fates, FirstCommit, 0, false);
      EndIsTruthful(Sweep(p0, fates, FirstCommit, 0, false).0);
    }
  }

  lemma SetStatusIsTruthful(s: Sys, to: Status)
    requires Truthful(s)
    ensures Truthful(SetStatus(s, to))
  {
  }

  lemma EndIsTruthful(s: Sys)
    requires Truthful(s)
    ensures Truthful(SetStatus(s, StatusNoTransaction)) && Truthful(AfterFrom(SetStatus(s, StatusNoTransaction), 0))
  {
    AfterGrows(SetStatus(s, StatusNoTransaction), 0);
  }

  lemma RollbackIsTruthful(s: Sys, fates: Fates)
    requires Inv(s) && s.status != StatusCommitting && s.status != StatusNoTransaction
    ensures Truthful(RollbackTransaction(s, fates).0)
  {
    hide Inv, Sweep, Truthful;
    OthersAreTruthful(s);
    if s.status == StatusActive || s.status == StatusMarkedRollback {
      StepToRollingBack(s);
      var s0 := SetStatus(s, StatusRollingBack);
      SweepKeeps(s0, fates, FirstRollback, 0, false);
      OthersAreTruthful(Sweep(s0, fates, FirstRollback, 0, false).0);
      EndIsTruthful(Sweep(s0, fates, FirstRollback, 0, false).0);
    } else if s.status == StatusRollingBack {
      SweepKeeps(s, fates, RetryRollback, 0, false);
      OthersAreTruthful(Sweep(s, fates, RetryRollback, 0, false).0);
      EndIsTruthful(Sweep(s, fates, RetryRollback, 0, false).0);
    }
  }

  lemma StepIsTruthful(s: Sys, fates: Fates, op: Op)
    requires Resting(s) && Truthful(s)
    ensures Truthful(Step(s, fates, op).0)
  {
    hide Inv, Truthful, CommitTransaction, RollbackTransaction, Register;
    StepKeeps(s, fates, op);
    var t := Step(s, fates, op).0;
    if t.status != StatusCommitting && t.status != StatusNoTransaction {
      OthersAreTruthful(t);
    } else {
      match op
      case OpCommit(report) => CommitIsTruthful(s, fates, report);
      case OpRollback =>
        if s.status == StatusCommitting || s.status == StatusNoTransaction {
          RollbackChangesNothing(s, fates);
        } else {
          RollbackIsTruthful(s, fates);
        }
      case OpRegister(r) => RegisterKeepsStatus(s, fates, r);
      case _ =>
    }
  }

  lemma RollbackChangesNothing(s: Sys, fates: Fates)
    requires s.status == StatusCommitting || s.status == StatusNoTransaction
    ensures RollbackTransaction(s, fates).0 == s
  {
  }

  lemma RegisterKeepsStatus(s: Sys, fates: Fates, r: Ref)
    ensures Register(s, fates, r).0.status == s.status
    ensures s.status != StatusActive ==> Register(s, fates, r).0 == s
  {
  }

  lemma {:induction false} RunIsTruthful(s: Sys, fates: Fates, ops: seq<Op>)
    requires Resting(s) && Truthful(s)
    ensures Truthful(Run(s, fates, ops))
    decreases |ops|
  {
    hide Inv, Truthful;
    if ops != [] {
      StepKeeps(s, fates, ops[0]);
      StepIsTruthful(s, fates, ops[0]);
      RunIsTruthful(Step(s, fates, ops[0]).0, fates, ops[1..]);
    }
  }

  /** In every reachable state an entry is marked as committed only if its participant has issued its
      xacommit. */
  lemma CommittedEntriesAreTrue(s: Sys, fates: Fates, ops: seq<Op>)
    requires Initial(s)
    ensures var t := Run(s, fates, ops);
            forall i | 0 <= i < |t.entries| :: t.entries[i].rv == RvCommitted ==> HasCommitted(t, t.entries[i].r)
  {
    InitialFits(s);
    RunIsTruthful(s, fates, ops);
  }

  /** With heuristics reported, a normal return of the first commit of two or more resources means
      that every one of them has issued its xacommit and the database has carried it out. */
  lemma ReportedSuccessIsComplete(s: Sys, fates: Fates)
    requires Resting(s) && s.status == StatusActive && |s.entries| >= 2
    requires CommitTransaction(s, fates, true).1 == Returned
    ensures var t := CommitTransaction(s, fates, true).0;
            forall j | 0 <= j < |s.entries| :: HasApplied(t, s.entries[j].r) && HasCommitted(t, s.entries[j].r)
  {
    hide Inv, CommitTransaction, PhaseOf, CommitsFrom;
    CommitEndings(s, fates, true);
    var t, n := CommitTransaction(s, fates, true).0, CommitsFrom(s);
    forall j | 0 <= j < |s.entries| ensures HasApplied(t, s.entries[j].r) && HasCommitted(t, s.entries[j].r) {
      assert SmoothCommit(fates, n, j) && !AnswerLost(fates, n, j);
      assert CommitEffect(t, s.entries[j].r, fates(n + j));
    }
  }

  /** The participant has prepared, and has heard nothing since. */
  predicate InDoubt(s: Sys, r: Ref) {
    r in s.parts && s.parts[r].status == StatusPrepared
  }

  /** A commit message that is executed without success, and whose answer is lost. */
  predicate HidesFailure(fates: Fates, n: nat, j: nat) {
    fates(n + j).ReplyLost? && !fates(n + j).db.commitOk
  }

  /** A commit message that is not executed. */
  predicate NeverArrives(fates: Fates, n: nat, j: nat) {
    fates(n + j).NotExecuted?
  }

  /** A first commit of two or more resources that returns normally, seen from one resource. */
  lemma FirstSuccessAt(s: Sys, fates: Fates, report: bool, j: nat)
    requires Resting(s) && s.status == StatusActive && |s.entries| >= 2 && j < |s.entries|
    requires CommitTransaction(s, fates, report).1 == Returned
    ensures var t, r, n := CommitTransaction(s, fates, report).0, s.entries[j].r, CommitsFrom(s);
            && (CommitFailed(t, r) <==> HidesFailure(fates, n, j)) && (InDoubt(t, r) <==> NeverArrives(fates, n, j))
            && (!HasApplied(t, r) <==> CommitFailed(t, r) || InDoubt(t, r))
            && (report ==> HasApplied(t, r))
  {
    hide Inv, CommitTransaction, PhaseOf, CommitsFrom;
    CommitEndings(s, fates, report);
    var t, n := CommitTransaction(s, fates, report).0, CommitsFrom(s);
    assert SmoothCommit(fates, n, j) && CommitEffect(t, s.entries[j].r, fates(n + j));
    assert report ==> !AnswerLost(fates, n, j);
  }

  /** When a normal return of the first commit of two or more resources hides that the work of some
      resource is missing: exactly if heuristics are not reported and some commit message is executed
      without success while its answer is lost, or is not executed at all. In the first case the
      commit has failed, and in the second the participant stays in doubt. */
  lemma SuccessHidesMissingIff(s: Sys, fates: Fates, report: bool)
    requires Resting(s) && s.status == StatusActive && |s.entries| >= 2
    requires CommitTransaction(s, fates, report).1 == Returned
    ensures var t, n := CommitTransaction(s, fates, report).0, CommitsFrom(s);
            && ((exists j | 0 <= j < |s.entries| :: !HasApplied(t, s.entries[j].r)) <==>
                  !report && exists j | 0 <= j < |s.entries| :: HidesFailure(fates, n, j) || NeverArrives(fates, n, j))
            && (forall j | 0 <= j < |s.entries| ::
                  && (CommitFailed(t, s.entries[j].r) <==> HidesFailure(fates, n, j))
                  && (InDoubt(t, s.entries[j].r) <==> NeverArrives(fates, n, j)))
  {
    hide Inv, CommitTransaction, CommitsFrom, CommitFailed, HasApplied, HidesFailure, NeverArrives, InDoubt;
    var t, n := CommitTransaction(s, fates, report).0, CommitsFrom(s);
    forall j | 0 <= j < |s.entries|
      ensures !HasApplied(t, s.entries[j].r) <==> !report && (HidesFailure(fates, n, j) || NeverArrives(fates, n, j))
      ensures CommitFailed(t, s.entries[j].r) <==> HidesFailure(fates, n, j)
      ensures InDoubt(t, s.entries[j].r) <==> NeverArrives(fates, n, j)
    {
      FirstSuccessAt(s, fates, report, j);
    }
  }

  lemma RetriedAt(p: Participant, fate: Fate)
    requires Consistent(p) && Smooth(p, RetryCommit, fate)
    ensures var q := AfterFate(p, RetryCommit, fate);
            XaCommit in q.commands && (q.applied <==> p.applied || XaCommit !in p.commands)
  {
  }

  lemma CommittingVotes(s: Sys, j: nat)
    requires Inv(s) && s.status == StatusCommitting && j < |s.entries|
    ensures s.entries[j].rv in {RvVoteCommit, RvVoteReadOnly, RvCommitted}
    ensures s.entries[j].r in s.parts && Consistent(s.parts[s.entries[j].r])
  {
  }

  /** A repeated commit that returns normally leaves the work of a resource missing exactly if its
      xacommit had failed before, or it had voted read-only and was not reached by the first pass: the
      repetition passes over read-only voters. */
  lemma RepeatedSuccessHidesMissingIff(s: Sys, fates: Fates, report: bool, j: nat)
    requires Inv(s) && Truthful(s) && s.status == StatusCommitting && j < |s.entries|
    requires CommitTransaction(s, fates, report).1 == Returned
    ensures var t, r := CommitTransaction(s, fates, report).0, s.entries[j].r;
            !HasApplied(t, r) <==> CommitFailed(s, r) || (s.entries[j].rv == RvVoteReadOnly && !HasApplied(s, r))
  {
    hide Inv, CommitTransaction, StopOf, FateAt, Contacts, StopEnd, Truthful, Smooth, AfterFate;
    CommittingVotes(s, j);
    RepeatForecast(s, fates, RetryCommit, report);
    var n := |s.trace| + |Contacts(s.entries, RetryCommit, 0)|;
    StopOfAll(s.entries, s.parts, fates, RetryCommit, n, 0);
    if s.entries[j].rv == RvVoteCommit {
      RetriedAt(s.parts[s.entries[j].r], FateAt(s.entries, fates, RetryCommit, n, j));
    } else if s.entries[j].rv == RvCommitted {
      TruthfulAt(s, j);
    }
  }

  lemma TruthfulAt(s: Sys, j: nat)
    requires Truthful(s) && j < |s.entries| && s.entries[j].rv == RvCommitted
    ensures HasCommitted(s, s.entries[j].r)
  {
  }

  // ------------------------------------------------------------------
  // A single resource
  // ------------------------------------------------------------------

  /** The message fails in a way that commit forgives. */
  predicate Forgives(fate: Fate) {
    !fate.Delivered? && Tolerated(fate.error)
  }

  /** What a lost answer to a one-phase commit leaves behind: an abort, or a commit that failed. */
  predicate LeavesAborted(p: Participant, fate: Fate) {
    || p.status == StatusRollingBack
    || (fate.ReplyLost? && p.status == StatusPrepared)
    || (fate.ReplyLost? && p.status == StatusActive && fate.db.prepareResult == -1)
  }

  predicate LeavesFailed(p: Participant, fate: Fate) {
    || (p.status == StatusCommitting && !p.applied)
    || (fate.ReplyLost? && p.status == StatusActive
        && fate.db.prepareResult !in {-1, 0} && !fate.db.commitOk)
  }

  /** The work of the resource is carried out, now or before. */
  predicate LeavesApplied(p: Participant, fate: Fate) {
    || p.applied
    || (fate.ReplyLost? && p.status == StatusActive
        && fate.db.prepareResult !in {-1, 0} && fate.db.commitOk)
  }

  predicate AnswersReadOnly(p: Participant, fate: Fate) {
    fate.Delivered? && p.status == StatusActive && fate.db.prepareResult == 0
  }

  /** Commit of a single resource, whatever happened to it before. The transaction stays Active. A
      normal return hides a rollback, or an xacommit that failed, exactly if heuristics are not
      reported, the message is lost in a forgiven way, and that is what it leaves behind; and the work
      of the resource is missing exactly if it voted read-only, or under the same condition on the
      message, also if that was not executed and nothing has happened. A resource that has committed
      already answers that it has rolled back. */
  lemma SuccessHidesRollbackIff(s: Sys, fates: Fates, report: bool)
    requires Inv(s) && s.status == StatusActive && |s.entries| == 1
    ensures var (t, end) := CommitTransaction(s, fates, report);
            var r, fate := s.entries[0].r, fates(|s.trace| + |s.syncs|);
            && t.status == StatusActive && r in s.parts
            && (end == Returned && HasAborted(t, r) <==> !report && Forgives(fate) && LeavesAborted(s.parts[r], fate))
            && (end == Returned && CommitFailed(t, r) <==> !report && Forgives(fate) && LeavesFailed(s.parts[r], fate))
            && (end == Returned && !HasApplied(t, r) <==>
                  AnswersReadOnly(s.parts[r], fate) || (!report && Forgives(fate) && !LeavesApplied(s.parts[r], fate)))
            && (fate.NotExecuted? ==> t.parts == s.parts)
            && (s.parts[r].status == StatusCommitting ==> (end == Raised(TransactionRolledBack) <==> fate.Delivered?))
  {
    hide Inv, BeforeFrom, CommitOnlyResource, CommitTransaction, LeavesAborted, LeavesFailed, Forgives;
    hide HasAborted, CommitFailed, HasApplied, LeavesApplied, AnswersReadOnly;
    OnlyOneIsThere(s);
    BeforeLength(s, 0);
    LoneUnfolds(s, fates, report);
    OnePhaseAborts(BeforeFrom(s, 0), fates, report);
  }

  /** The message of a single commit leads to a normal return. */
  predicate LoneReturns(p: Participant, fate: Fate, report: bool) {
    match fate
    case Delivered(db) =>
      && p.status == StatusActive
      && (db.prepareResult == 0 || (db.prepareResult != -1 && db.commitOk))
    case ReplyLost(_, e) => !report && Tolerated(e)
    case NotExecuted(e) => !report && Tolerated(e)
  }

  lemma LoneReturnsIff(s: Sys, fates: Fates, report: bool)
    requires Inv(s) && s.status == StatusActive && |s.entries| == 1
    ensures s.entries[0].r in s.parts
    ensures CommitTransaction(s, fates, report).1 == Returned <==>
              LoneReturns(s.parts[s.entries[0].r], fates(|s.trace| + |s.syncs|), report)
  {
    hide Inv, BeforeFrom, CommitTransaction, LoneReturns;
    OnlyOneIsThere(s);
    BeforeLength(s, 0);
    LoneUnfolds(s, fates, report);
    OnePhaseReturns(s.parts[s.entries[0].r], fates(|s.trace| + |s.syncs|), report);
  }

  lemma OnePhaseReturns(p: Participant, fate: Fate, report: bool)
    requires Consistent(p)
    ensures fate.Delivered? ==>
              var reply := CommitOnePhaseOf(p, fate.db).1;
              !reply.Failed? && (reply.Done? <==> LoneReturns(p, fate, report))
    ensures !fate.Delivered? ==> (LoneReturns(p, fate, report) <==> Tolerated(fate.error) && !report)
  {
  }

  lemma LoneUnfolds(s: Sys, fates: Fates, report: bool)
    requires s.status == StatusActive && |s.entries| == 1
    ensures var s1 := BeforeFrom(s, 0);
            && s1.entries == s.entries && s1.parts == s.parts && s1.status == s.status
            && CommitTransaction(s, fates, report) == CommitOnlyResource(s1, fates, report)
  {
    BeforeGrows(s, 0);
  }

  lemma OnlyOneIsThere(s: Sys)
    requires Inv(s) && |s.entries| == 1
    ensures s.entries[0].r in s.parts && Consistent(s.parts[s.entries[0].r])
  {
  }

  lemma OnePhaseAborts(s: Sys, fates: Fates, report: bool)
    requires |s.entries| == 1 && s.entries[0].r in s.parts && Consistent(s.parts[s.entries[0].r])
    ensures var (t, end) := CommitOnlyResource(s, fates, report);
            var r, fate := s.entries[0].r, fates(|s.trace|);
            && t.status == s.status
            && (end == Returned && HasAborted(t, r) <==> !report && Forgives(fate) && LeavesAborted(s.parts[r], fate))
            && (end == Returned && CommitFailed(t, r) <==> !report && Forgives(fate) && LeavesFailed(s.parts[r], fate))
            && (end == Returned && !HasApplied(t, r) <==>
                  AnswersReadOnly(s.parts[r], fate) || (!report && Forgives(fate) && !LeavesApplied(s.parts[r], fate)))
            && (fate.NotExecuted? ==> t.parts == s.parts)
            && (s.parts[r].status == StatusCommitting ==> (end == Raised(TransactionRolledBack) <==> fate.Delivered?))
  {
    hide CommitOnePhaseOf, Issued;
    var p := s.parts[s.entries[0].r];
    match fates(|s.trace|)
    case NotExecuted(_) => OnePhaseCommands(p, Database(0, true, true));
    case Delivered(db) => OnePhaseCommands(p, db);
    case ReplyLost(db, _) => OnePhaseCommands(p, db);
  }

  lemma OnePhaseCommands(p: Participant, db: Database)
    requires Consistent(p)
    ensures var (q, reply) := CommitOnePhaseOf(p, db);
            && (XaRollback in q.commands <==> LeavesAborted(p, ReplyLost(db, CommFailure)))
            && (XaCommit in q.commands && !q.applied <==> LeavesFailed(p, ReplyLost(db, CommFailure)))
            && (q.applied <==> LeavesApplied(p, ReplyLost(db, CommFailure)))
            && (reply == Done && !q.applied <==> AnswersReadOnly(p, Delivered(db)))
            && (XaRollback in q.commands || (XaCommit in q.commands && !q.applied) ==> reply != Done)
            && (p.status == StatusCommitting ==> reply == Refused(TransactionRolledBack))
            && (reply.Done? || reply.Refused? || reply.Hung?)
            && (XaRollback in p.commands <==> p.status == StatusRollingBack)
            && (XaCommit in p.commands <==> p.status == StatusCommitting)
  {
    if p.status == StatusActive {
      match ClassifyVote(db.prepareResult)
      case VoteCommit =>
      case VoteReadOnly =>
      case VoteRollback =>
    }
  }
}
